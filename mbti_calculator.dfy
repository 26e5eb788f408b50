/**
 * The scoring pipeline: answers are folded into four signed sums and four
 * counts, averaged per axis, turned into a four-letter code, a confidence
 * percentage and per-axis strength labels, and checked for completeness.
 */
module MbtiCalculator {
  import opened Wrappers
  import opened Types
  import opened Builtins
  import MbtiTypes
  import DataIndex

  /** `MBTIScores`: one signed number per axis. */
  datatype Scores = Scores(ei: real, sn: real, tf: real, jp: real)
  {
    function Get(d: Dimension): real
    {
      match d
      case EI => ei
      case SN => sn
      case TF => tf
      case JP => jp
    }
  }

  /** How many answers fell on each axis. */
  datatype Counts = Counts(ei: nat, sn: nat, tf: nat, jp: nat)
  {
    function Get(d: Dimension): nat
    {
      match d
      case EI => ei
      case SN => sn
      case TF => tf
      case JP => jp
    }
  }

  /** The running sums and counts of the fold. */
  datatype Tally = Tally(sums: Scores, counts: Counts)

  const Zero: Scores := Scores(0.0, 0.0, 0.0, 0.0)
  const EmptyTally: Tally := Tally(Zero, Counts(0, 0, 0, 0))

  /** The letter whose answers add their value to an axis. */
  function AddingPole(d: Dimension): string
  {
    match d
    case EI => "E"
    case SN => "N"
    case TF => "F"
    case JP => "P"
  }

  /** The letter whose answers subtract their value from an axis. */
  function SubtractingPole(d: Dimension): string
  {
    match d
    case EI => "I"
    case SN => "S"
    case TF => "T"
    case JP => "J"
  }

  /** The two letters of an axis are its pair, in some order. */
  lemma PolesArePairs(d: Dimension)
    ensures {AddingPole(d), SubtractingPole(d)} == {FirstPole(d), SecondPole(d)}
    ensures AddingPole(d) != SubtractingPole(d)
  {
  }

  /** One answer folded into the tally: the `switch` on its pole letter. */
  function Step(t: Tally, a: UserAnswer): Tally
  {
    var s, c, v := t.sums, t.counts, a.value;
    if a.dimension == "E" then Tally(s.(ei := s.ei + v), c.(ei := c.ei + 1))
    else if a.dimension == "I" then Tally(s.(ei := s.ei - v), c.(ei := c.ei + 1))
    else if a.dimension == "S" then Tally(s.(sn := s.sn - v), c.(sn := c.sn + 1))
    else if a.dimension == "N" then Tally(s.(sn := s.sn + v), c.(sn := c.sn + 1))
    else if a.dimension == "T" then Tally(s.(tf := s.tf - v), c.(tf := c.tf + 1))
    else if a.dimension == "F" then Tally(s.(tf := s.tf + v), c.(tf := c.tf + 1))
    else if a.dimension == "J" then Tally(s.(jp := s.jp - v), c.(jp := c.jp + 1))
    else if a.dimension == "P" then Tally(s.(jp := s.jp + v), c.(jp := c.jp + 1))
    else t
  }

  /** The tally after folding the answers in order. */
  function Accumulate(answers: seq<UserAnswer>): Tally
  {
    if answers == [] then EmptyTally
    else Step(Accumulate(answers[..|answers| - 1]), answers[|answers| - 1])
  }

  /** The mean of an axis, or exactly 0 when no answer fell on it. */
  function Average(sum: real, count: nat): real
  {
    if count > 0 then sum / count as real else 0.0
  }

  function Normalize(t: Tally): Scores
  {
    Scores(
      Average(t.sums.ei, t.counts.ei),
      Average(t.sums.sn, t.counts.sn),
      Average(t.sums.tf, t.counts.tf),
      Average(t.sums.jp, t.counts.jp))
  }

  /** The normalised scores of an answer list. */
  function ScoresOf(answers: seq<UserAnswer>): Scores
  {
    Normalize(Accumulate(answers))
  }

  /** `calculateMBTIScores`: the fold as a loop over the answers, then the averages. */
  method CalculateMbtiScores(answers: seq<UserAnswer>) returns (normalized: Scores)
    ensures normalized == ScoresOf(answers)
  {
    var scores := Zero;
    var counts := Counts(0, 0, 0, 0);
    for i := 0 to |answers|
      invariant Tally(scores, counts) == Accumulate(answers[..i])
    {
      assert answers[..i + 1][..i] == answers[..i];
      var dimension, value := answers[i].dimension, answers[i].value;
      if dimension == "E" {
        scores := scores.(ei := scores.ei + value);
        counts := counts.(ei := counts.ei + 1);
      } else if dimension == "I" {
        scores := scores.(ei := scores.ei - value);
        counts := counts.(ei := counts.ei + 1);
      } else if dimension == "S" {
        scores := scores.(sn := scores.sn - value);
        counts := counts.(sn := counts.sn + 1);
      } else if dimension == "N" {
        scores := scores.(sn := scores.sn + value);
        counts := counts.(sn := counts.sn + 1);
      } else if dimension == "T" {
        scores := scores.(tf := scores.tf - value);
        counts := counts.(tf := counts.tf + 1);
      } else if dimension == "F" {
        scores := scores.(tf := scores.tf + value);
        counts := counts.(tf := counts.tf + 1);
      } else if dimension == "J" {
        scores := scores.(jp := scores.jp - value);
        counts := counts.(jp := counts.jp + 1);
      } else if dimension == "P" {
        scores := scores.(jp := scores.jp + value);
        counts := counts.(jp := counts.jp + 1);
      }
    }
    assert answers[..|answers|] == answers;
    normalized := Scores(
      if counts.ei > 0 then scores.ei / counts.ei as real else 0.0,
      if counts.sn > 0 then scores.sn / counts.sn as real else 0.0,
      if counts.tf > 0 then scores.tf / counts.tf as real else 0.0,
      if counts.jp > 0 then scores.jp / counts.jp as real else 0.0);
  }

  // A per-axis reference for the fold, written from the pole table.

  /** What one answer adds to the sum of axis `d`. */
  function Contribution(a: UserAnswer, d: Dimension): real
  {
    if a.dimension == AddingPole(d) then a.value
    else if a.dimension == SubtractingPole(d) then -a.value
    else 0.0
  }

  /** Whether one answer counts towards axis `d`. */
  function Hit(a: UserAnswer, d: Dimension): nat
  {
    if a.dimension == AddingPole(d) || a.dimension == SubtractingPole(d) then 1 else 0
  }

  function AxisSum(answers: seq<UserAnswer>, d: Dimension): real
  {
    if answers == [] then 0.0
    else AxisSum(answers[..|answers| - 1], d) + Contribution(answers[|answers| - 1], d)
  }

  function AxisCount(answers: seq<UserAnswer>, d: Dimension): nat
  {
    if answers == [] then 0
    else AxisCount(answers[..|answers| - 1], d) + Hit(answers[|answers| - 1], d)
  }

  /** A pole letter belongs to at most one axis; any other string belongs to none. */
  function AxisOf(pole: string): Option<Dimension>
  {
    if pole == "E" || pole == "I" then Some(EI)
    else if pole == "S" || pole == "N" then Some(SN)
    else if pole == "T" || pole == "F" then Some(TF)
    else if pole == "J" || pole == "P" then Some(JP)
    else None
  }

  /**
   * Each answer changes exactly the axis of its pole letter: that sum moves
   * by `value` (E, N, F, P) or `-value` (I, S, T, J) and that count by one.
   * An unrecognised letter changes nothing.
   */
  lemma StepChangesOneAxis(t: Tally, a: UserAnswer, d: Dimension)
    ensures Step(t, a).sums.Get(d) == t.sums.Get(d) + Contribution(a, d)
    ensures Step(t, a).counts.Get(d) == t.counts.Get(d) + Hit(a, d)
    ensures Hit(a, d) == 1 <==> AxisOf(a.dimension) == Some(d)
    ensures AxisOf(a.dimension).None? ==> Step(t, a) == t
  {
  }

  /** The fold computes, on every axis, the reference sum and count. */
  lemma {:induction false} AccumulatePerAxis(answers: seq<UserAnswer>, d: Dimension)
    ensures Accumulate(answers).sums.Get(d) == AxisSum(answers, d)
    ensures Accumulate(answers).counts.Get(d) == AxisCount(answers, d)
  {
    if answers != [] {
      AccumulatePerAxis(answers[..|answers| - 1], d);
      StepChangesOneAxis(Accumulate(answers[..|answers| - 1]), answers[|answers| - 1], d);
    }
  }

  /** An axis nobody answered has sum 0. */
  lemma {:induction false} UnansweredAxisSumsToZero(answers: seq<UserAnswer>, d: Dimension)
    requires AxisCount(answers, d) == 0
    ensures AxisSum(answers, d) == 0.0
  {
    if answers != [] {
      UnansweredAxisSumsToZero(answers[..|answers| - 1], d);
    }
  }

  /** Each normalised score is the axis sum over the axis count, or exactly 0 when the count is 0. */
  lemma NormalizedScore(answers: seq<UserAnswer>, d: Dimension)
    ensures AxisCount(answers, d) > 0 ==> ScoresOf(answers).Get(d) == AxisSum(answers, d) / AxisCount(answers, d) as real
    ensures AxisCount(answers, d) == 0 ==> ScoresOf(answers).Get(d) == 0.0
  {
    AccumulatePerAxis(answers, d);
  }

  /** Two steps commute. */
  lemma StepsCommute(t: Tally, x: UserAnswer, y: UserAnswer)
    ensures Step(Step(t, x), y) == Step(Step(t, y), x)
  {
    var l, r := Step(Step(t, x), y), Step(Step(t, y), x);
    forall d ensures l.sums.Get(d) == r.sums.Get(d) && l.counts.Get(d) == r.counts.Get(d) {
      StepChangesOneAxis(t, x, d);
      StepChangesOneAxis(t, y, d);
      StepChangesOneAxis(Step(t, x), y, d);
      StepChangesOneAxis(Step(t, y), x, d);
    }
    TallyExtensional(l, r);
  }

  /** Tallies that agree on every axis are equal. */
  lemma TallyExtensional(l: Tally, r: Tally)
    requires forall d :: l.sums.Get(d) == r.sums.Get(d) && l.counts.Get(d) == r.counts.Get(d)
    ensures l == r
  {
    assert l.sums.Get(EI) == r.sums.Get(EI) && l.counts.Get(EI) == r.counts.Get(EI);
    assert l.sums.Get(SN) == r.sums.Get(SN) && l.counts.Get(SN) == r.counts.Get(SN);
    assert l.sums.Get(TF) == r.sums.Get(TF) && l.counts.Get(TF) == r.counts.Get(TF);
    assert l.sums.Get(JP) == r.sums.Get(JP) && l.counts.Get(JP) == r.counts.Get(JP);
  }

  /** Folding an answer in the middle of a list is folding it last. */
  lemma {:induction false} AccumulateInsert(s1: seq<UserAnswer>, x: UserAnswer, s2: seq<UserAnswer>)
    ensures Accumulate(s1 + [x] + s2) == Step(Accumulate(s1 + s2), x)
    decreases |s2|
  {
    if s2 == [] {
      assert s1 + [x] + s2 == s1 + [x];
      assert (s1 + [x])[..|s1|] == s1;
      assert s1 + s2 == s1;
    } else {
      var s2' := s2[..|s2| - 1];
      var y := s2[|s2| - 1];
      AccumulateInsert(s1, x, s2');
      assert (s1 + [x] + s2)[..|s1 + [x] + s2| - 1] == s1 + [x] + s2';
      assert (s1 + s2)[..|s1 + s2| - 1] == s1 + s2';
      StepsCommute(Accumulate(s1 + s2'), x, y);
    }
  }

  /** The tally is the same for every reordering of the answers. */
  lemma {:induction false} AccumulatePermutation(a: seq<UserAnswer>, b: seq<UserAnswer>)
    requires multiset(a) == multiset(b)
    ensures Accumulate(a) == Accumulate(b)
    decreases |a|
  {
    if a != [] {
      var x := a[|a| - 1];
      var a' := a[..|a| - 1];
      assert a == a' + [x];
      assert x in multiset(b);
      var k :| 0 <= k < |b| && b[k] == x;
      var b1, b2 := b[..k], b[k + 1..];
      assert b == b1 + [x] + b2;
      RemoveOne(a', x, b1, b2);
      AccumulatePermutation(a', b1 + b2);
      AccumulateInsert(b1, x, b2);
    } else {
      assert |b| == |multiset(b)| == 0;
    }
  }

  lemma RemoveOne(a: seq<UserAnswer>, x: UserAnswer, b1: seq<UserAnswer>, b2: seq<UserAnswer>)
    requires multiset(a + [x]) == multiset(b1 + [x] + b2)
    ensures multiset(a) == multiset(b1 + b2)
  {
    assert multiset(a + [x]) == multiset(a) + multiset{x};
    assert multiset(b1 + [x] + b2) == multiset(b1) + multiset{x} + multiset(b2);
    assert multiset(b1 + b2) == multiset(b1) + multiset(b2);
    assert multiset(a) == multiset(a + [x]) - multiset{x};
  }

  /** The score vector is the same for every reordering of the answers. */
  lemma ScoresPermutation(a: seq<UserAnswer>, b: seq<UserAnswer>)
    requires multiset(a) == multiset(b)
    ensures ScoresOf(a) == ScoresOf(b)
  {
    AccumulatePermutation(a, b);
  }

  /** With every value in [-2, 2], each axis sum is within twice its count. */
  lemma {:induction false} AxisSumBounded(answers: seq<UserAnswer>, d: Dimension)
    requires forall a :: a in answers ==> -2.0 <= a.value <= 2.0
    ensures -2.0 * AxisCount(answers, d) as real <= AxisSum(answers, d) <= 2.0 * AxisCount(answers, d) as real
  {
    if answers != [] {
      AxisSumBounded(answers[..|answers| - 1], d);
    }
  }

  lemma QuotientBounded(sum: real, count: real)
    requires count > 0.0
    requires -2.0 * count <= sum <= 2.0 * count
    ensures -2.0 <= sum / count <= 2.0
  {
    var q := sum / count;
    assert q * count == sum;
  }

  /** If every answer value is in [-2, 2], so is every normalised score. */
  lemma ScoresBounded(answers: seq<UserAnswer>, d: Dimension)
    requires forall a :: a in answers ==> -2.0 <= a.value <= 2.0
    ensures -2.0 <= ScoresOf(answers).Get(d) <= 2.0
  {
    NormalizedScore(answers, d);
    if AxisCount(answers, d) > 0 {
      AxisSumBounded(answers, d);
      QuotientBounded(AxisSum(answers, d), AxisCount(answers, d) as real);
    }
  }

  /** The letter a score resolves to on axis `d`: the adding pole for 0 and above. */
  function PreferenceLetter(score: real, d: Dimension): char
  {
    if score >= 0.0 then AddingPole(d)[0] else SubtractingPole(d)[0]
  }

  /** The code the four signs spell: one letter per axis, in axis order. */
  function Letters(s: Scores): (code: string)
    ensures |code| == 4
    ensures forall i :: 0 <= i < 4 ==> code[i] == PreferenceLetter(s.Get(Dimensions[i]), Dimensions[i])
  {
    seq(4, i requires 0 <= i < 4 => PreferenceLetter(s.Get(Dimensions[i]), Dimensions[i]))
  }

  /** Every spelled code is one of the sixteen and a key of the type table. */
  lemma LettersInTable(s: Scores)
    ensures IsMbtiCode(Letters(s)) && Letters(s) in MbtiTypes.MbtiTypes()
  {
    MbtiTypes.KeysAreTheSixteenCodes();
  }

  /** The letters spelled sign by sign, as the source writes them. */
  lemma LettersSpelled(s: Scores)
    ensures Letters(s) == [
      if s.ei >= 0.0 then 'E' else 'I',
      if s.sn >= 0.0 then 'N' else 'S',
      if s.tf >= 0.0 then 'F' else 'T',
      if s.jp >= 0.0 then 'P' else 'J']
  {
  }

  /**
   * `determineMBTIType`: four letters from the four signs, with the table
   * check and its "ENFP" fallback, which no score vector reaches.
   */
  function DetermineMbtiType(s: Scores): (code: string)
    ensures code == Letters(s) && IsMbtiCode(code)
  {
    var typeCode := [
      if s.ei >= 0.0 then 'E' else 'I',
      if s.sn >= 0.0 then 'N' else 'S',
      if s.tf >= 0.0 then 'F' else 'T',
      if s.jp >= 0.0 then 'P' else 'J'];
    LettersSpelled(s);
    LettersInTable(s);
    if typeCode !in MbtiTypes.MbtiTypes() then "ENFP" else typeCode
  }

  /** A score vector that points at a code: +1 towards each letter's adding pole, -1 otherwise. */
  function ScoresFor(code: string): Scores
    requires |code| == 4
  {
    Scores(
      if code[0] == 'E' then 1.0 else -1.0,
      if code[1] == 'N' then 1.0 else -1.0,
      if code[2] == 'F' then 1.0 else -1.0,
      if code[3] == 'P' then 1.0 else -1.0)
  }

  /** Every one of the sixteen codes is produced by some score vector. */
  lemma EveryCodeReachable(code: string)
    requires IsMbtiCode(code)
    ensures |code| == 4 && DetermineMbtiType(ScoresFor(code)) == code
  {
    var r := Letters(ScoresFor(code));
    assert r[0] == code[0] && r[1] == code[1] && r[2] == code[2] && r[3] == code[3];
  }

  /** The all-zero vector gives "ENFP", through the letter rules rather than the fallback. */
  lemma ZeroScoresGiveEnfp()
    ensures DetermineMbtiType(Zero) == "ENFP"
  {
    var r := DetermineMbtiType(Zero);
    assert r == [r[0], r[1], r[2], r[3]];
  }

  /** `getStrengthCategory`: half-open buckets, so each threshold belongs to the higher bucket. */
  function StrengthCategory(x: real): (r: Strength)
    ensures r == Slight <==> x < 0.3
    ensures r == Moderate <==> 0.3 <= x < 0.7
    ensures r == Clear <==> 0.7 <= x < 1.3
    ensures r == VeryClear <==> 1.3 <= x
  {
    if x < 0.3 then Slight
    else if x < 0.7 then Moderate
    else if x < 1.3 then Clear
    else VeryClear
  }

  function StrengthRank(s: Strength): nat
  {
    match s
    case Slight => 0
    case Moderate => 1
    case Clear => 2
    case VeryClear => 3
  }

  /** A larger magnitude never gets a weaker label. */
  lemma StrengthMonotone(x: real, y: real)
    requires x <= y
    ensures StrengthRank(StrengthCategory(x)) <= StrengthRank(StrengthCategory(y))
  {
  }

  /** The mean distance of the four scores from neutral. */
  function MeanMagnitude(s: Scores): (m: real)
    ensures 0.0 <= m
  {
    (Abs(s.ei) + Abs(s.sn) + Abs(s.tf) + Abs(s.jp)) / 4.0
  }

  /** `calculateConfidence`: the mean magnitude as a share of 2, capped at 100 and rounded. */
  function CalculateConfidence(s: Scores): (c: int)
    ensures 0 <= c <= 100
    ensures c as real - 0.5 <= Min(100.0, MeanMagnitude(s) * 50.0) < c as real + 0.5
  {
    Round(Min(100.0, MeanMagnitude(s) / 2.0 * 100.0))
  }

  /** Confidence never decreases as the mean magnitude grows. */
  lemma ConfidenceMonotone(s: Scores, t: Scores)
    requires MeanMagnitude(s) <= MeanMagnitude(t)
    ensures CalculateConfidence(s) <= CalculateConfidence(t)
  {
    RoundMonotone(Min(100.0, MeanMagnitude(s) / 2.0 * 100.0), Min(100.0, MeanMagnitude(t) / 2.0 * 100.0));
  }

  /** The zero vector has confidence 0; scores of magnitude 2 everywhere have confidence 100. */
  lemma ConfidenceExtremes()
    ensures CalculateConfidence(Zero) == 0
    ensures CalculateConfidence(Scores(2.0, -2.0, 2.0, -2.0)) == 100
  {
  }

  /** For scores within [-2, 2] the cap at 100 never binds. */
  lemma ConfidenceUncapped(s: Scores)
    requires forall d :: -2.0 <= s.Get(d) <= 2.0
    ensures CalculateConfidence(s) == Round(MeanMagnitude(s) * 50.0)
  {
    assert -2.0 <= s.Get(EI) <= 2.0 && -2.0 <= s.Get(SN) <= 2.0;
    assert -2.0 <= s.Get(TF) <= 2.0 && -2.0 <= s.Get(JP) <= 2.0;
  }

  /** `getMBTITypeData`: the entry for an own key, `null` otherwise. */
  function GetMbtiTypeData(typeCode: string): (r: Option<MbtiType>)
    ensures r.Some? <==> IsMbtiCode(typeCode)
    ensures r.Some? ==> r.value.code == typeCode
  {
    DataIndex.GetMbtiType(typeCode)
  }

  /** `MBTIResult`. */
  datatype MbtiResult = MbtiResult(typeCode: string, scores: Scores, confidence: int, dimensionScores: seq<DimensionScore>)

  /** The detailed score of one axis. */
  function AxisDetail(d: Dimension, score: real, preference: char): DimensionScore
  {
    DimensionScore(d, score, preference, StrengthCategory(Abs(score)))
  }

  /** The four per-axis details: each axis's score, its letter and the strength of its magnitude. */
  function Details(scores: Scores): (ds: seq<DimensionScore>)
    ensures |ds| == 4
    ensures forall i :: 0 <= i < 4 ==>
      && ds[i].dimension == Dimensions[i]
      && ds[i].score == scores.Get(Dimensions[i])
      && ds[i].preference == Letters(scores)[i]
      && ds[i].strength == StrengthCategory(Abs(ds[i].score))
  {
    [
      AxisDetail(EI, scores.ei, if scores.ei >= 0.0 then 'E' else 'I'),
      AxisDetail(SN, scores.sn, if scores.sn >= 0.0 then 'N' else 'S'),
      AxisDetail(TF, scores.tf, if scores.tf >= 0.0 then 'F' else 'T'),
      AxisDetail(JP, scores.jp, if scores.jp >= 0.0 then 'P' else 'J')]
  }

  /** `processMBTITest`: an error for no answers, else the code, scores, confidence and per-axis details. */
  function ProcessMbtiTest(answers: seq<UserAnswer>): (r: Result<MbtiResult>)
    ensures r.Err? <==> answers == []
    ensures r.Ok? ==>
      && r.value.scores == ScoresOf(answers)
      && r.value.typeCode == DetermineMbtiType(r.value.scores)
      && IsMbtiCode(r.value.typeCode)
      && r.value.confidence == CalculateConfidence(r.value.scores)
      && 0 <= r.value.confidence <= 100
      && |r.value.dimensionScores| == 4
      && forall i :: 0 <= i < 4 ==>
        && r.value.dimensionScores[i].dimension == Dimensions[i]
        && r.value.dimensionScores[i].score == r.value.scores.Get(Dimensions[i])
        && r.value.dimensionScores[i].preference == r.value.typeCode[i]
        && r.value.dimensionScores[i].strength == StrengthCategory(Abs(r.value.dimensionScores[i].score))
  {
    if answers == [] then Err("No answers provided for MBTI calculation")
    else
      var scores := ScoresOf(answers);
      var typeCode := DetermineMbtiType(scores);
      var confidence := CalculateConfidence(scores);
      var dimensionScores := Details(scores);
      Ok(MbtiResult(typeCode, scores, confidence, dimensionScores))
  }

  /** The result does not depend on the order of the answers. */
  lemma ProcessOrderIndependent(a: seq<UserAnswer>, b: seq<UserAnswer>)
    requires multiset(a) == multiset(b)
    ensures ProcessMbtiTest(a) == ProcessMbtiTest(b)
  {
    ScoresPermutation(a, b);
    if a == [] {
      assert |b| == |multiset(b)| == 0;
    }
  }

  // Validation

  /** The eight pole letters a complete answer set must cover, in the order they are reported. */
  const RequiredPoles: seq<string> := ["E", "I", "S", "N", "T", "F", "J", "P"]

  /** The set of pole letters the answers use. */
  function PolesSeen(answers: seq<UserAnswer>): set<string>
  {
    set a | a in answers :: a.dimension
  }

  /** The letters of `poles` not in `seen`, in order (`filter`). */
  function Absent(poles: seq<string>, seen: set<string>): (r: seq<string>)
    ensures forall p :: p in r <==> p in poles && p !in seen
    ensures |r| <= |poles|
  {
    if poles == [] then []
    else if poles[0] in seen then Absent(poles[1..], seen)
    else [poles[0]] + Absent(poles[1..], seen)
  }

  /** Every one of the eight letters is used by some answer. */
  predicate AllPolesPresent(answers: seq<UserAnswer>)
  {
    forall p :: p in RequiredPoles ==> exists a :: a in answers && a.dimension == p
  }

  /** The required letters no answer uses, in the order they are reported. */
  function MissingPoles(answers: seq<UserAnswer>): (missing: seq<string>)
    ensures forall p :: p in missing <==> p in RequiredPoles && forall a :: a in answers ==> a.dimension != p
    ensures missing == [] <==> AllPolesPresent(answers)
  {
    var missing := Absent(RequiredPoles, PolesSeen(answers));
    assert missing != [] ==> missing[0] in missing;
    missing
  }

  predicate ValidValue(a: UserAnswer)
  {
    -2.0 <= a.value <= 2.0
  }

  predicate AllValuesValid(answers: seq<UserAnswer>)
  {
    forall a :: a in answers ==> ValidValue(a)
  }

  /** How many answers carry a value outside [-2, 2]. */
  function InvalidCount(answers: seq<UserAnswer>): (n: nat)
    ensures n <= |answers|
    ensures n == 0 <==> AllValuesValid(answers)
  {
    if answers == [] then 0
    else (if ValidValue(answers[0]) then 0 else 1) + InvalidCount(answers[1..])
  }

  /** One problem `validateAnswers` reports. */
  datatype Issue = NoAnswers | MissingDimensions(poles: seq<string>) | InvalidValues(count: nat)

  /** The message the source pushes for an issue. */
  function Message(issue: Issue): string
  {
    match issue
    case NoAnswers => "No answers provided"
    case MissingDimensions(poles) => "Missing dimensions: " + Join(poles, ", ")
    case InvalidValues(count) => NatToString(count) + " answers have invalid values"
  }

  datatype Validation = Validation(isValid: bool, issues: seq<Issue>, completeness: int)

  /** The completeness gate: of 18 questions, 12 answers give 67% and 13 give 72%, so 70% needs 13. */
  lemma CompletenessGate(n: nat)
    ensures Percent(n, 18) >= 70 <==> n >= 13
    ensures Percent(12, 18) == 67 && Percent(13, 18) == 72 && Percent(18, 18) == 100
  {
    if n >= 13 {
      assert n as real / 18.0 * 100.0 >= 13.0 / 18.0 * 100.0;
    } else {
      assert n as real / 18.0 * 100.0 <= 12.0 / 18.0 * 100.0;
    }
  }

  /** `validateAnswers`: collects the issues in order and applies the completeness gate. */
  method ValidateAnswers(answers: seq<UserAnswer>) returns (v: Validation)
    ensures answers == [] ==> v == Validation(false, [NoAnswers], 0)
    ensures answers != [] ==> v.completeness == Percent(|answers|, 18)
    ensures answers != [] ==>
      v.issues ==
        (if AllPolesPresent(answers) then [] else [MissingDimensions(MissingPoles(answers))]) +
        (if AllValuesValid(answers) then [] else [InvalidValues(InvalidCount(answers))])
    ensures v.isValid <==> v.issues == [] && v.completeness >= 70
    ensures v.completeness >= 70 <==> |answers| >= 13
    ensures v.isValid <==> |answers| >= 13 && AllPolesPresent(answers) && AllValuesValid(answers)
  {
    CompletenessGate(|answers|);
    var issues: seq<Issue> := [];
    if |answers| == 0 {
      issues := issues + [NoAnswers];
      return Validation(false, issues, 0);
    }
    var missingDimensions := MissingPoles(answers);
    if |missingDimensions| > 0 {
      issues := issues + [MissingDimensions(missingDimensions)];
    }
    var completeness := Percent(|answers|, 18);
    var invalidAnswers := InvalidCount(answers);
    if invalidAnswers > 0 {
      issues := issues + [InvalidValues(invalidAnswers)];
    }
    var isValid := |issues| == 0 && completeness >= 70;
    v := Validation(isValid, issues, completeness);
  }

  /** `getTravelRecommendations`: the travel style of an own key, `null` otherwise. */
  function GetTravelRecommendations(typeCode: string): (r: Option<TravelStyle>)
    ensures r.Some? <==> IsMbtiCode(typeCode)
    ensures r.Some? ==> |r.value.preferences| == 3
    ensures r.Some? ==> exists i :: 0 <= i < |MbtiTypes.Entries| && MbtiTypes.Entries[i].0 == typeCode && MbtiTypes.Entries[i].1.travelStyle == r.value
  {
    match GetMbtiTypeData(typeCode)
    case Some(t) => Some(t.travelStyle)
    case None => None
  }
}
