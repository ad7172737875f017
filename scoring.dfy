/**
 * The scoring engine of services/scoring.ts: per-category sums over the
 * question catalogue (calculateScores) and the two macro triads
 * (calculateMacroScores). The catalogue is a parameter; answers are keyed by
 * question id.
 */
module Scoring {
  import opened Types
  import opened Text
  import Seqs

  // ---------------------------------------------------------------------------
  // The category-code grammar /^(\d+)([a-z])?/
  // ---------------------------------------------------------------------------

  /** The two capture groups: the digit run and the optional lowercase letter after it. */
  datatype CodeMatch = CodeMatch(digits: string, letter: Option<char>)

  /** The regular expression /^(\d+)([a-z])?/ applied to a category code; None when it does not match. */
  function MatchCode(code: string): (m: Option<CodeMatch>)
    ensures m.Some? <==> code != [] && IsDigit(code[0])
    ensures m.Some? ==>
      var ds := m.value.digits;
      && ds != [] && |ds| <= |code| && ds == code[..|ds|]
      && (forall i :: 0 <= i < |ds| ==> IsDigit(ds[i]))
      && (|ds| < |code| ==> !IsDigit(code[|ds|]))
      && (m.value.letter.Some? <==> |ds| < |code| && IsLower(code[|ds|]))
      && (m.value.letter.Some? ==> m.value.letter.value == code[|ds|])
  {
    var ds := DigitPrefix(code);
    if ds == [] then None
    else if |ds| < |code| && IsLower(code[|ds|]) then Some(CodeMatch(ds, Some(code[|ds|])))
    else Some(CodeMatch(ds, None))
  }

  /** The text a match covers: the digits followed by the letter, if any. */
  function MatchedText(m: CodeMatch): string
  {
    m.digits + (if m.letter.Some? then [m.letter.value] else [])
  }

  /**
   * Matching recovers its groups from the text they cover, whatever follows
   * that text, as long as the match cannot extend into it.
   */
  lemma MatchCodeRoundTrip(m: CodeMatch, rest: string)
    requires m.digits != [] && forall i :: 0 <= i < |m.digits| ==> IsDigit(m.digits[i])
    requires m.letter.Some? ==> IsLower(m.letter.value)
    requires m.letter.None? ==> rest == [] || (!IsDigit(rest[0]) && !IsLower(rest[0]))
    ensures MatchCode(MatchedText(m) + rest) == Some(m)
  {
    var code := MatchedText(m) + rest;
    var tail := (if m.letter.Some? then [m.letter.value] else []) + rest;
    assert code == m.digits + tail;
    assert tail == [] || !IsDigit(tail[0]);
    DigitPrefixOfRun(m.digits, tail);
    if m.letter.Some? {
      assert code[|m.digits|] == m.letter.value;
    }
  }

  /** ['a', 'b', 'c'].includes(char), where an absent letter is included in nothing. */
  predicate LetterIn(letter: Option<char>, letters: string)
  {
    letter.Some? && letter.value in letters
  }

  // ---------------------------------------------------------------------------
  // Category resolution and the score-map keys
  // ---------------------------------------------------------------------------

  /**
   * The categoryId calculateScores computes for a matched code: the digit
   * string, except that "24" followed by a..c, d..f or g..i becomes 24m, 24f
   * or 24o. It can name a key the score map does not have ("24", "28", "01").
   */
  function ResolveCategory(code: string): Option<string>
  {
    match MatchCode(code)
    case None => None
    case Some(CodeMatch(num, letter)) =>
      if num == "24" then
        if LetterIn(letter, "abc") then Some("24m")
        else if LetterIn(letter, "def") then Some("24f")
        else if LetterIn(letter, "ghi") then Some("24o")
        else Some(num)
      else Some(num)
  }

  /** The keys initialised for category i: its decimal form, or the three folds of 24. */
  function KeysFor(i: nat): set<string>
  {
    if i == 24 then {"24m", "24f", "24o"} else {NatToString(i)}
  }

  /** The keys initialised by the first n rounds of the initialisation loop. */
  function KeysUpTo(n: nat): set<string>
  {
    if n == 0 then {} else KeysUpTo(n - 1) + KeysFor(n)
  }

  /** The decimal forms of the categories 1..n other than 24. */
  function NumberKeys(n: nat): set<string>
  {
    set i: nat | 1 <= i <= n && i != 24 :: NatToString(i)
  }

  /** The keys of every score map: "1".."27" without "24", and the three folds of 24. */
  function ScoreKeys(): set<string>
  {
    NumberKeys(27) + {"24m", "24f", "24o"}
  }

  /** Every key is either the decimal form of a category 1..n other than 24, or a fold of 24. */
  lemma {:induction false} KeysUpToShape(n: nat, k: string)
    requires k in KeysUpTo(n)
    ensures || (&& (forall i :: 0 <= i < |k| ==> IsDigit(k[i]))
                && 1 <= DigitsValue(k) <= n && DigitsValue(k) != 24
                && k == NatToString(DigitsValue(k)))
            || (24 <= n && k in {"24m", "24f", "24o"})
  {
    if k in KeysFor(n) {
      if n != 24 {
        DigitsOfNat(n);
      }
    } else {
      KeysUpToShape(n - 1, k);
    }
  }

  /** Round n of the initialisation adds only keys that earlier rounds did not. */
  lemma KeysForFresh(n: nat, k: string)
    requires n > 0 && k in KeysFor(n)
    ensures k !in KeysUpTo(n - 1)
  {
    if k in KeysUpTo(n - 1) {
      KeysUpToShape(n - 1, k);
      if n != 24 {
        DigitsOfNat(n);
      }
    }
  }

  /** Each round of the initialisation adds keys not seen before: one, or three for category 24. */
  lemma {:induction false} KeysUpToCount(n: nat)
    ensures |KeysUpTo(n)| == if n >= 24 then n + 2 else n
  {
    if n > 0 {
      KeysUpToCount(n - 1);
      var before := KeysUpTo(n - 1);
      var added := KeysFor(n);
      forall k | k in added ensures k !in before {
        KeysForFresh(n, k);
      }
      assert before !! added;
      assert |added| == if n == 24 then 3 else 1;
      assert |before + added| == |before| + |added|;
    }
  }

  /** Raising the bound by one adds the decimal form of that category, unless it is 24. */
  lemma NumberKeysStep(n: nat)
    requires n > 0
    ensures NumberKeys(n) == NumberKeys(n - 1) + (if n != 24 then {NatToString(n)} else {})
  {
    var added: set<string> := if n != 24 then {NatToString(n)} else {};
    forall k | k in NumberKeys(n) ensures k in NumberKeys(n - 1) + added {
      var i: nat :| 1 <= i <= n && i != 24 && k == NatToString(i);
      if i < n {
        assert k in NumberKeys(n - 1);
      }
    }
    forall k | k in NumberKeys(n - 1) + added ensures k in NumberKeys(n) {
      if k in NumberKeys(n - 1) {
        var i: nat :| 1 <= i <= n - 1 && i != 24 && k == NatToString(i);
        assert 1 <= i <= n;
      }
    }
  }

  /** After n rounds the loop has created the decimal forms of 1..n except 24, and the folds once 24 is passed. */
  lemma {:induction false} KeysUpToNumbers(n: nat)
    ensures KeysUpTo(n) == NumberKeys(n) + (if n >= 24 then {"24m", "24f", "24o"} else {})
  {
    if n > 0 {
      KeysUpToNumbers(n - 1);
      NumberKeysStep(n);
    }
  }

  /** The 27 rounds of the initialisation loop create exactly the 29 keys. */
  lemma ScoreKeysExactly()
    ensures KeysUpTo(27) == ScoreKeys()
    ensures |ScoreKeys()| == 29
  {
    KeysUpToNumbers(27);
    KeysUpToCount(27);
  }

  /** A digit string is a key exactly when it is the decimal form of a category 1..27 other than 24. */
  lemma DigitKeys(ds: string)
    requires forall i :: 0 <= i < |ds| ==> IsDigit(ds[i])
    ensures ds in ScoreKeys() <==> 1 <= DigitsValue(ds) <= 27 && DigitsValue(ds) != 24 && ds == NatToString(DigitsValue(ds))
  {
    assert ds !in {"24m", "24f", "24o"} by {
      assert |ds| >= 3 ==> IsDigit(ds[2]);
    }
    if ds in ScoreKeys() {
      assert ds in NumberKeys(27);
      var i: nat :| 1 <= i <= 27 && i != 24 && ds == NatToString(i);
      DigitsOfNat(i);
    }
    var v := DigitsValue(ds);
    if 1 <= v <= 27 && v != 24 && ds == NatToString(v) {
      assert ds in NumberKeys(27);
    }
  }

  /** No key is written with a leading zero. */
  lemma KeysNoLeadingZero(k: string)
    requires k in ScoreKeys()
    ensures k != [] && k[0] != '0'
  {
    if k in NumberKeys(27) {
      var i: nat :| 1 <= i <= 27 && i != 24 && k == NatToString(i);
    }
  }

  /** The key calculateScores adds a question's answer to, if any: the resolved id when the map has it. */
  function ScoreBucket(code: string): (b: Option<string>)
    ensures b.Some? ==> b.value in ScoreKeys()
  {
    var c := ResolveCategory(code);
    if c.Some? && c.value in ScoreKeys() then c else None
  }

  /** "24" is not a key: category 24 exists only through its three folds. */
  lemma TwentyFourNotKey()
    ensures "24" !in ScoreKeys()
  {
    assert "24"[..1] == "2";
    DigitKeys("24");
  }

  /** A code "24x..." adds to 24m, 24f or 24o according to x, and to nothing for any other letter or none. */
  lemma Category24Folding(x: char, rest: string)
    requires !IsDigit(x)
    ensures ScoreBucket("24" + [x] + rest) ==
      if x in "abc" then Some("24m")
      else if x in "def" then Some("24f")
      else if x in "ghi" then Some("24o")
      else None
  {
    var code := "24" + [x] + rest;
    DigitPrefixOfRun("24", [x] + rest);
    assert code == "24" + ([x] + rest);
    assert code[2] == x;
    TwentyFourNotKey();
  }

  /** A bare "24" adds to nothing. */
  lemma Category24Bare(rest: string)
    requires rest == [] || (!IsDigit(rest[0]) && !IsLower(rest[0]))
    ensures ScoreBucket("24" + rest) == None
  {
    DigitPrefixOfRun("24", rest);
    TwentyFourNotKey();
  }

  /**
   * A code has a category exactly when it starts with a digit. The category is
   * the digit run as written, leading zeros included, unless it is one of the
   * three folds of 24.
   */
  lemma ResolveCategoryOfMatch(code: string)
    ensures ResolveCategory(code).Some? <==> code != [] && IsDigit(code[0])
    ensures ResolveCategory(code).Some? && ResolveCategory(code).value !in {"24m", "24f", "24o"} ==>
      ResolveCategory(code).value == MatchCode(code).value.digits
    ensures ResolveCategory(code).Some? && ResolveCategory(code).value in {"24m", "24f", "24o"} ==>
      MatchCode(code).value.digits == "24"
  {
    var m := MatchCode(code);
    if m.Some? {
      var ds := m.value.digits;
      assert |ds| == 3 ==> IsDigit(ds[2]);
    }
  }

  /** Codes that do not start with a digit match nothing and add to nothing. */
  lemma UnmatchedCodesDropped(code: string)
    requires code == [] || !IsDigit(code[0])
    ensures MatchCode(code).None? && ScoreBucket(code) == None
  {
  }

  /** A code whose digits are not a key and not "24" adds to nothing, whatever its letter. */
  lemma NonKeyDigitsDropped(code: string)
    requires MatchCode(code).Some?
    requires var ds := MatchCode(code).value.digits;
      ds != "24" && (DigitsValue(ds) == 0 || DigitsValue(ds) > 27 || ds != NatToString(DigitsValue(ds)))
    ensures ScoreBucket(code) == None
  {
    DigitKeys(MatchCode(code).value.digits);
  }

  /** The digit strings "28" and "01" are not keys, so "28a" and "01a" add to no score. */
  lemma NotKeys()
    ensures "28" !in ScoreKeys() && "01" !in ScoreKeys()
  {
    assert "28"[..1] == "2";
    DigitKeys("28");
    if "01" in ScoreKeys() {
      KeysNoLeadingZero("01");
    }
  }

  /** Any code whose digits start with '0' adds to no score key. */
  lemma LeadingZeroDropped(code: string)
    requires MatchCode(code).Some? && MatchCode(code).value.digits[0] == '0'
    ensures ScoreBucket(code) == None
  {
    var c := ResolveCategory(code);
    if c.Some? && c.value in ScoreKeys() {
      KeysNoLeadingZero(c.value);
    }
  }

  // ---------------------------------------------------------------------------
  // Per-category sums
  // ---------------------------------------------------------------------------

  /** `if (ans)`: the question has a recorded, non-zero answer. */
  predicate Answered(answers: Answers, id: int)
  {
    id in answers && answers[id] != 0
  }

  /** What question q adds to key: its answer when it is answered and resolves to key, else 0. */
  function Contribution(q: Question, answers: Answers, key: string): int
  {
    if Answered(answers, q.id) && ScoreBucket(q.code) == Some(key) then answers[q.id] else 0
  }

  function ContributionTo(answers: Answers, key: string): Question -> int
  {
    q => Contribution(q, answers, key)
  }

  /** The sum of the answers to the questions of qs that resolve to key. */
  function CategorySum(qs: seq<Question>, answers: Answers, key: string): int
  {
    Seqs.Sum(qs, ContributionTo(answers, key))
  }

  /** Every key of keys, mapped to its category sum. */
  function SumsOver(keys: set<string>, qs: seq<Question>, answers: Answers): map<string, int>
  {
    map key | key in keys :: CategorySum(qs, answers, key)
  }

  /** The score map calculateScores returns: every key, with its category sum. */
  function ScoreMap(qs: seq<Question>, answers: Answers): map<string, int>
  {
    SumsOver(ScoreKeys(), qs, answers)
  }

  /** Every entry of the map is 0. */
  predicate AllZero(scores: map<string, int>)
  {
    forall key :: key in scores ==> scores[key] == 0
  }

  /** Adding a key at 0 keeps every entry 0. */
  lemma AllZeroAdd(scores: map<string, int>, key: string)
    requires AllZero(scores)
    ensures AllZero(scores[key := 0])
  {
  }

  /** The lines 7-16 initialisation: every key present, at 0. */
  method InitialScores() returns (scores: map<string, int>)
    ensures scores.Keys == ScoreKeys()
    ensures forall key :: key in scores ==> scores[key] == 0
  {
    scores := map[];
    for i := 1 to 28
      invariant scores.Keys == KeysUpTo(i - 1)
      invariant AllZero(scores)
    {
      if i == 24 {
        AllZeroAdd(scores, "24m");
        AllZeroAdd(scores["24m" := 0], "24f");
        AllZeroAdd(scores["24m" := 0]["24f" := 0], "24o");
        scores := scores["24m" := 0]["24f" := 0]["24o" := 0];
      } else {
        AllZeroAdd(scores, NatToString(i));
        scores := scores[NatToString(i) := 0];
      }
    }
    ScoreKeysExactly();
  }

  /** The map after one question's answer is added to the key its code resolves to, if any. */
  function Tally(scores: map<string, int>, q: Question, answers: Answers): map<string, int>
  {
    var c := ResolveCategory(q.code);
    if Answered(answers, q.id) && c.Some? && c.value in scores
    then scores[c.value := scores[c.value] + answers[q.id]] else scores
  }

  /**
   * The lines 19-52 callback for one question: the answer is added to the
   * category its code resolves to, when it is answered and that category is a
   * key of the map; otherwise the map is returned unchanged.
   */
  method TallyQuestion(scores: map<string, int>, q: Question, answers: Answers) returns (scores': map<string, int>)
    ensures scores' == Tally(scores, q, answers)
  {
    scores' := scores;
    var m := MatchCode(q.code);
    if m.Some? {
      var num, letter := m.value.digits, m.value.letter;
      if Answered(answers, q.id) {
        var ans := answers[q.id];
        var categoryId := num;
        if num == "24" {
          if LetterIn(letter, "abc") {
            categoryId := "24m";
          } else if LetterIn(letter, "def") {
            categoryId := "24f";
          } else if LetterIn(letter, "ghi") {
            categoryId := "24o";
          }
        }
        if categoryId in scores {
          scores' := scores[categoryId := scores[categoryId] + ans];
        }
      }
    }
  }

  /** calculateScores: one pass over the catalogue adding each answered question to its key. */
  method CalculateScores(catalogue: seq<Question>, answers: Answers) returns (scores: map<string, int>)
    ensures scores == ScoreMap(catalogue, answers)
  {
    scores := InitialScores();
    assert scores == ScoreMap([], answers) by {
      ScoreMapOfNoQuestions(answers);
    }
    for j := 0 to |catalogue|
      invariant scores == ScoreMap(catalogue[..j], answers)
    {
      TallyExtendsScoreMap(catalogue[..j], catalogue[j], answers);
      Seqs.PrefixAppend(catalogue, j);
      scores := TallyQuestion(scores, catalogue[j], answers);
    }
    assert catalogue[..|catalogue|] == catalogue;
  }

  /** Appending a question adds its contribution to every category sum. */
  lemma CategorySumAppend(qs: seq<Question>, q: Question, answers: Answers, key: string)
    ensures CategorySum(qs + [q], answers, key) == CategorySum(qs, answers, key) + Contribution(q, answers, key)
  {
    Seqs.SumPrefixStep(qs + [q], |qs|, ContributionTo(answers, key));
    assert (qs + [q])[..|qs|] == qs && (qs + [q])[..|qs| + 1] == qs + [q];
  }

  /** SumsOver after appending q: only q's bucket (when it is among keys) grows, by q's answer. */
  lemma SumsOverAppend(keys: set<string>, qs: seq<Question>, q: Question, answers: Answers)
    ensures SumsOver(keys, qs + [q], answers) ==
      var b := ScoreBucket(q.code);
      if Answered(answers, q.id) && b.Some? && b.value in keys then
        SumsOver(keys, qs, answers)[b.value := SumsOver(keys, qs, answers)[b.value] + answers[q.id]]
      else SumsOver(keys, qs, answers)
  {
    var before, after := SumsOver(keys, qs, answers), SumsOver(keys, qs + [q], answers);
    var b := ScoreBucket(q.code);
    if Answered(answers, q.id) && b.Some? && b.value in keys {
      var expected := before[b.value := before[b.value] + answers[q.id]];
      forall key | key in keys
        ensures after[key] == expected[key]
      {
        CategorySumAppend(qs, q, answers, key);
      }
      assert after.Keys == expected.Keys;
      assert after == expected;
    } else {
      forall key | key in keys
        ensures after[key] == before[key]
      {
        CategorySumAppend(qs, q, answers, key);
      }
      assert after.Keys == before.Keys;
      assert after == before;
    }
  }

  /** Tallying one more question into the score map of qs gives the score map of qs + [q]. */
  lemma TallyExtendsScoreMap(qs: seq<Question>, q: Question, answers: Answers)
    ensures Tally(ScoreMap(qs, answers), q, answers) == ScoreMap(qs + [q], answers)
  {
    var keys := ScoreKeys();
    SumsOverAppend(keys, qs, q, answers);
    var c, b := ResolveCategory(q.code), ScoreBucket(q.code);
    assert ScoreMap(qs, answers).Keys == keys;
    if c.Some? && c.value in keys {
      assert b == c;
    } else {
      assert b.None?;
    }
  }

  /** The score map is empty of contributions for an empty catalogue: every key is 0. */
  lemma ScoreMapOfNoQuestions(answers: Answers)
    ensures ScoreMap([], answers).Keys == ScoreKeys()
    ensures forall key :: key in ScoreMap([], answers) ==> ScoreMap([], answers)[key] == 0
  {
  }

  /** With Likert answers every entry is non-negative. */
  lemma ScoresNonNegative(qs: seq<Question>, answers: Answers)
    requires LikertAnswers(answers)
    ensures forall key :: key in ScoreMap(qs, answers) ==> ScoreMap(qs, answers)[key] >= 0
  {
    forall key | key in ScoreKeys() ensures CategorySum(qs, answers, key) >= 0 {
      Seqs.SumNonNegative(qs, ContributionTo(answers, key));
    }
  }

  /** A question that is unanswered, or resolves to no key, adds nothing anywhere. */
  lemma SilentQuestionsChangeNothing(qs: seq<Question>, q: Question, answers: Answers)
    requires !Answered(answers, q.id) || ScoreBucket(q.code).None?
    ensures ScoreMap(qs + [q], answers) == ScoreMap(qs, answers)
  {
    TallyExtendsScoreMap(qs, q, answers);
  }

  /** The score map does not depend on the order of the catalogue. */
  lemma ScoresOrderIndependent(qs: seq<Question>, qs': seq<Question>, answers: Answers)
    requires multiset(qs) == multiset(qs')
    ensures ScoreMap(qs, answers) == ScoreMap(qs', answers)
  {
    forall key | key in ScoreKeys() ensures CategorySum(qs, answers, key) == CategorySum(qs', answers, key) {
      Seqs.SumPermutation(qs, qs', ContributionTo(answers, key));
    }
  }

  // ---------------------------------------------------------------------------
  // Macro triads
  // ---------------------------------------------------------------------------

  datatype MacroAxis = Active | Passive | Concept | Self | We | Ideal

  /**
   * The axis calculateMacroScores adds a question to: codes with a letter
   * whose numeric value is 1..11 (a/b/c to active/passive/concept) or 12..19
   * (a/b/c to self/we/ideal). The value is parseInt of the digits, so "01a"
   * is category 1.
   */
  function MacroAxisOf(code: string): Option<MacroAxis>
  {
    match MatchCode(code)
    case None => None
    case Some(CodeMatch(digits, letter)) =>
      if letter.None? then None
      else
        var num := DigitsValue(digits);
        var ch := letter.value;
        if 1 <= num <= 11 then
          if ch == 'a' then Some(Active) else if ch == 'b' then Some(Passive)
          else if ch == 'c' then Some(Concept) else None
        else if 12 <= num <= 19 then
          if ch == 'a' then Some(Self) else if ch == 'b' then Some(We)
          else if ch == 'c' then Some(Ideal) else None
        else None
  }

  /** What question q adds to axis: its answer when answered and on that axis, else 0. */
  function AxisContribution(q: Question, answers: Answers, axis: MacroAxis): int
  {
    if Answered(answers, q.id) && MacroAxisOf(q.code) == Some(axis) then answers[q.id] else 0
  }

  function AxisContributionTo(answers: Answers, axis: MacroAxis): Question -> int
  {
    q => AxisContribution(q, answers, axis)
  }

  function AxisSum(qs: seq<Question>, answers: Answers, axis: MacroAxis): int
  {
    Seqs.Sum(qs, AxisContributionTo(answers, axis))
  }

  /** Appending a question adds its contribution to every axis sum. */
  lemma AxisSumAppend(qs: seq<Question>, q: Question, answers: Answers, axis: MacroAxis)
    ensures AxisSum(qs + [q], answers, axis) == AxisSum(qs, answers, axis) + AxisContribution(q, answers, axis)
  {
    Seqs.SumPrefixStep(qs + [q], |qs|, AxisContributionTo(answers, axis));
    assert (qs + [q])[..|qs|] == qs && (qs + [q])[..|qs| + 1] == qs + [q];
  }

  /** The macro profile calculateMacroScores returns: each axis with its sum. */
  function MacroOf(qs: seq<Question>, answers: Answers): MacroScores
  {
    MacroScores(
      SocialTriad(AxisSum(qs, answers, Active), AxisSum(qs, answers, Passive), AxisSum(qs, answers, Concept)),
      EmotionalTriad(AxisSum(qs, answers, Self), AxisSum(qs, answers, We), AxisSum(qs, answers, Ideal)))
  }

  /** The value of one axis of a profile. */
  function AxisValue(macro: MacroScores, axis: MacroAxis): int
  {
    match axis
    case Active => macro.social.active
    case Passive => macro.social.passive
    case Concept => macro.social.concept
    case Self => macro.emotional.self
    case We => macro.emotional.we
    case Ideal => macro.emotional.ideal
  }

  /** The profile with val added to one axis. */
  function AddToAxis(macro: MacroScores, axis: MacroAxis, val: int): (r: MacroScores)
    ensures AxisValue(r, axis) == AxisValue(macro, axis) + val
    ensures forall other :: other != axis ==> AxisValue(r, other) == AxisValue(macro, other)
  {
    match axis
    case Active => macro.(social := macro.social.(active := macro.social.active + val))
    case Passive => macro.(social := macro.social.(passive := macro.social.passive + val))
    case Concept => macro.(social := macro.social.(concept := macro.social.concept + val))
    case Self => macro.(emotional := macro.emotional.(self := macro.emotional.self + val))
    case We => macro.(emotional := macro.emotional.(we := macro.emotional.we + val))
    case Ideal => macro.(emotional := macro.emotional.(ideal := macro.emotional.ideal + val))
  }

  /** Two profiles are equal when they agree on every axis. */
  lemma MacroExtensional(a: MacroScores, b: MacroScores)
    requires forall axis :: AxisValue(a, axis) == AxisValue(b, axis)
    ensures a == b
  {
    assert AxisValue(a, Active) == AxisValue(b, Active);
    assert AxisValue(a, Passive) == AxisValue(b, Passive);
    assert AxisValue(a, Concept) == AxisValue(b, Concept);
    assert AxisValue(a, Self) == AxisValue(b, Self);
    assert AxisValue(a, We) == AxisValue(b, We);
    assert AxisValue(a, Ideal) == AxisValue(b, Ideal);
  }

  /** The profile after one question's answer is added to the axis its code feeds, if any. */
  function MacroTally(macro: MacroScores, q: Question, answers: Answers): MacroScores
  {
    var axis := MacroAxisOf(q.code);
    if Answered(answers, q.id) && axis.Some? then AddToAxis(macro, axis.value, answers[q.id]) else macro
  }

  /** Tallying one more question into the profile of qs gives the profile of qs + [q]. */
  lemma MacroTallyExtendsProfile(qs: seq<Question>, q: Question, answers: Answers)
    ensures MacroTally(MacroOf(qs, answers), q, answers) == MacroOf(qs + [q], answers)
  {
    var before, after := MacroOf(qs, answers), MacroOf(qs + [q], answers);
    var tallied := MacroTally(before, q, answers);
    forall axis ensures AxisValue(tallied, axis) == AxisValue(after, axis) {
      AxisSumAppend(qs, q, answers, axis);
      MacroTallyAxis(before, q, answers, axis);
      AxisValueOfProfile(qs, answers, axis);
      AxisValueOfProfile(qs + [q], answers, axis);
    }
    MacroExtensional(tallied, after);
  }

  /** Each axis of the profile of qs is that axis's sum. */
  lemma AxisValueOfProfile(qs: seq<Question>, answers: Answers, axis: MacroAxis)
    ensures AxisValue(MacroOf(qs, answers), axis) == AxisSum(qs, answers, axis)
  {
  }

  /** Tallying q adds its contribution to each axis. */
  lemma MacroTallyAxis(macro: MacroScores, q: Question, answers: Answers, axis: MacroAxis)
    ensures AxisValue(MacroTally(macro, q, answers), axis) == AxisValue(macro, axis) + AxisContribution(q, answers, axis)
  {
  }

  /**
   * The lines 63-88 callback for one question: codes without a letter and
   * unanswered questions return early; otherwise the answer is added to the
   * axis that the number's range and the letter select.
   */
  method TallyMacroQuestion(macro: MacroScores, q: Question, answers: Answers) returns (macro': MacroScores)
    ensures macro' == MacroTally(macro, q, answers)
  {
    macro' := macro;
    var m := MatchCode(q.code);
    if m.None? || m.value.letter.None? {
      return;
    }
    var num := DigitsValue(m.value.digits);
    var ch := m.value.letter.value;
    var val := if q.id in answers then answers[q.id] else 0;
    if val == 0 {
      return;
    }
    if 1 <= num <= 11 {
      if ch == 'a' { macro' := AddToAxis(macro', Active, val); }
      if ch == 'b' { macro' := AddToAxis(macro', Passive, val); }
      if ch == 'c' { macro' := AddToAxis(macro', Concept, val); }
    }
    if 12 <= num <= 19 {
      if ch == 'a' { macro' := AddToAxis(macro', Self, val); }
      if ch == 'b' { macro' := AddToAxis(macro', We, val); }
      if ch == 'c' { macro' := AddToAxis(macro', Ideal, val); }
    }
  }

  /** calculateMacroScores: both triads start at 0, one pass adds each answered a/b/c question. */
  method CalculateMacroScores(catalogue: seq<Question>, answers: Answers) returns (macro: MacroScores)
    ensures macro == MacroOf(catalogue, answers)
  {
    macro := MacroScores(SocialTriad(0, 0, 0), EmotionalTriad(0, 0, 0));
    for j := 0 to |catalogue|
      invariant macro == MacroOf(catalogue[..j], answers)
    {
      MacroTallyExtendsProfile(catalogue[..j], catalogue[j], answers);
      Seqs.PrefixAppend(catalogue, j);
      macro := TallyMacroQuestion(macro, catalogue[j], answers);
    }
    assert catalogue[..|catalogue|] == catalogue;
  }

  /** Codes without a letter, and numbers outside 1..19, feed no axis. */
  lemma MacroIgnoresOtherCodes(code: string)
    requires MatchCode(code).Some?
    requires var m := MatchCode(code).value;
      m.letter.None? || !(1 <= DigitsValue(m.digits) <= 19) || m.letter.value !in "abc"
    ensures MacroAxisOf(code) == None
  {
  }

  /**
   * A code has a macro axis exactly when it carries a letter a, b or c and its
   * number is 1..19; the social axes are those of 1..11.
   */
  lemma MacroAxisIff(code: string)
    ensures MacroAxisOf(code).Some? <==>
      && MatchCode(code).Some? && MatchCode(code).value.letter.Some?
      && 1 <= DigitsValue(MatchCode(code).value.digits) <= 19
      && MatchCode(code).value.letter.value in "abc"
    ensures MacroAxisOf(code).Some? ==>
      (MacroAxisOf(code).value in {Active, Passive, Concept} <==> DigitsValue(MatchCode(code).value.digits) <= 11)
  {
  }

  /** For a code "<n><x>...", the axis is fixed by the range of n and the letter x. */
  lemma MacroAxisByRange(n: nat, x: char, rest: string)
    requires IsLower(x)
    ensures MacroAxisOf(NatToString(n) + [x] + rest) ==
      if 1 <= n <= 11 && x == 'a' then Some(Active)
      else if 1 <= n <= 11 && x == 'b' then Some(Passive)
      else if 1 <= n <= 11 && x == 'c' then Some(Concept)
      else if 12 <= n <= 19 && x == 'a' then Some(Self)
      else if 12 <= n <= 19 && x == 'b' then Some(We)
      else if 12 <= n <= 19 && x == 'c' then Some(Ideal)
      else None
  {
    var m := CodeMatch(NatToString(n), Some(x));
    MatchCodeRoundTrip(m, rest);
    assert MatchedText(m) + rest == NatToString(n) + [x] + rest;
    DigitsOfNat(n);
  }

  /**
   * The two resolvers differ on leading zeros: "01a" feeds social.active,
   * while the score map drops it because "01" is not a key.
   */
  lemma LeadingZeroResolversDiffer(rest: string)
    requires rest == [] || !IsDigit(rest[0])
    ensures MacroAxisOf("01a" + rest) == Some(Active)
    ensures ScoreBucket("01a" + rest) == None
  {
    var code := "01a" + rest;
    assert code == "01" + ("a" + rest);
    assert "01"[..1] == "0" && "0"[..0] == [];
    assert DigitsValue("01") == 1;
    DigitPrefixOfRun("01", "a" + rest);
    assert code[2] == 'a';
    LeadingZeroDropped(code);
  }

  /** The macro profile does not depend on the order of the catalogue. */
  lemma MacroOrderIndependent(qs: seq<Question>, qs': seq<Question>, answers: Answers)
    requires multiset(qs) == multiset(qs')
    ensures MacroOf(qs, answers) == MacroOf(qs', answers)
  {
    forall axis ensures AxisSum(qs, answers, axis) == AxisSum(qs', answers, axis) {
      Seqs.SumPermutation(qs, qs', AxisContributionTo(answers, axis));
    }
    MacroExtensional(MacroOf(qs, answers), MacroOf(qs', answers));
  }

  /** With Likert answers every axis is non-negative. */
  lemma MacroNonNegative(qs: seq<Question>, answers: Answers)
    requires LikertAnswers(answers)
    ensures forall axis :: AxisValue(MacroOf(qs, answers), axis) >= 0
  {
    forall axis ensures AxisSum(qs, answers, axis) >= 0 {
      Seqs.SumNonNegative(qs, AxisContributionTo(answers, axis));
    }
  }

  /** How the pattern splits the codes "1a", "1b" and "24a". */
  lemma ExampleMatches()
    ensures MatchCode("1a") == Some(CodeMatch("1", Some('a')))
    ensures MatchCode("1b") == Some(CodeMatch("1", Some('b')))
    ensures MatchCode("24a") == Some(CodeMatch("24", Some('a')))
  {
    MatchCodeRoundTrip(CodeMatch("1", Some('a')), "");
    MatchCodeRoundTrip(CodeMatch("1", Some('b')), "");
    MatchCodeRoundTrip(CodeMatch("24", Some('a')), "");
    assert MatchedText(CodeMatch("1", Some('a'))) + "" == "1a";
    assert MatchedText(CodeMatch("1", Some('b'))) + "" == "1b";
    assert MatchedText(CodeMatch("24", Some('a'))) + "" == "24a";
  }

  /** The score keys of the codes "1a", "1b" and "24a". */
  lemma ExampleBuckets()
    ensures ScoreBucket("1a") == Some("1") && ScoreBucket("1b") == Some("1") && ScoreBucket("24a") == Some("24m")
  {
    ExampleMatches();
    assert "1" in ScoreKeys() by {
      assert NatToString(1) == "1";
    }
    TwentyFourNotKey();
  }

  /** The macro axes of the codes "1a", "1b" and "24a". */
  lemma ExampleAxes()
    ensures MacroAxisOf("1a") == Some(Active) && MacroAxisOf("1b") == Some(Passive) && MacroAxisOf("24a") == None
  {
    ExampleMatches();
    assert "24"[..1] == "2" && "2"[..0] == [];
  }

  /**
   * Answers 4, 2 and 3 on "1a", "1b" and "24a" give category 1 the sum 6 and
   * 24m the sum 3.
   */
  lemma ExampleScores(q1: Question, q2: Question, q3: Question, answers: Answers)
    requires q1 == Question(1, "1a") && q2 == Question(2, "1b") && q3 == Question(3, "24a")
    requires answers == map[1 := 4, 2 := 2, 3 := 3]
    ensures "1" in ScoreMap([q1, q2, q3], answers) && ScoreMap([q1, q2, q3], answers)["1"] == 6
    ensures "24m" in ScoreMap([q1, q2, q3], answers) && ScoreMap([q1, q2, q3], answers)["24m"] == 3
  {
    ExampleBuckets();
    var qs := [q1, q2, q3];
    assert CategorySum(qs, answers, "1") == 6 by {
      Seqs.SumOfThree(q1, q2, q3, ContributionTo(answers, "1"));
    }
    assert CategorySum(qs, answers, "24m") == 3 by {
      Seqs.SumOfThree(q1, q2, q3, ContributionTo(answers, "24m"));
    }
  }

  /** The same answers give social.active 4 and social.passive 2. */
  lemma ExampleMacro(q1: Question, q2: Question, q3: Question, answers: Answers)
    requires q1 == Question(1, "1a") && q2 == Question(2, "1b") && q3 == Question(3, "24a")
    requires answers == map[1 := 4, 2 := 2, 3 := 3]
    ensures MacroOf([q1, q2, q3], answers).social.active == 4
    ensures MacroOf([q1, q2, q3], answers).social.passive == 2
  {
    ExampleAxes();
    var qs := [q1, q2, q3];
    assert AxisSum(qs, answers, Active) == 4 by {
      Seqs.SumOfThree(q1, q2, q3, AxisContributionTo(answers, Active));
    }
    assert AxisSum(qs, answers, Passive) == 2 by {
      Seqs.SumOfThree(q1, q2, q3, AxisContributionTo(answers, Passive));
    }
  }
}
