/**
 * What the shipped questionnaire can produce: an answer recorded from the
 * catalog adds a non-negative amount to the EI sum and a non-positive one to
 * the SN, TF and JP sums, so every run of the quiz yields a code starting with
 * "E", and N, F or P only on an axis where every answer was the neutral one.
 */
module CatalogScoring {
  import opened Types
  import Questions
  import opened MbtiCalculator

  /** The answer recorded when `option` of question `q` is chosen. */
  function Record(q: Questions.Question, option: Questions.Answer): (a: UserAnswer)
    ensures a.questionId == q.id && a.answerId == option.id
  {
    UserAnswer(q.id, option.id, option.value as real, option.dimension)
  }

  /** An answer some selection in the catalog records. */
  predicate FromCatalog(a: UserAnswer)
  {
    exists i, j :: 0 <= i < |Questions.Questions| && 0 <= j < |Questions.Questions[i].answers| && a == Record(Questions.Questions[i], Questions.Questions[i].answers[j])
  }

  /** The shape of every catalog answer: 2 or 0 on the first letter of a pair, -2 on the second. */
  predicate Shaped(a: UserAnswer)
  {
    || (a.dimension in {"E", "S", "T", "J"} && (a.value == 2.0 || a.value == 0.0))
    || (a.dimension in {"I", "N", "F", "P"} && a.value == -2.0)
  }

  lemma CatalogAnswerShaped(a: UserAnswer)
    requires FromCatalog(a)
    ensures Shaped(a)
  {
    var i, j :| 0 <= i < |Questions.Questions| && 0 <= j < |Questions.Questions[i].answers| && a == Record(Questions.Questions[i], Questions.Questions[i].answers[j]);
    Questions.CatalogShape();
    var q := Questions.Questions[i];
    assert Questions.WellShaped(q);
    assert FirstPole(q.dimension) in {"E", "S", "T", "J"} && SecondPole(q.dimension) in {"I", "N", "F", "P"};
    assert j == 0 || j == 1 || j == 2;
  }

  /** The sign of one shaped answer's contribution on each axis. */
  lemma ShapedContribution(a: UserAnswer, d: Dimension)
    requires Shaped(a)
    ensures -2.0 <= a.value <= 2.0
    ensures d == EI ==> Contribution(a, d) >= 0.0
    ensures d != EI ==> Contribution(a, d) <= 0.0
    ensures Contribution(a, d) == 0.0 <==> Hit(a, d) == 0 || a.value == 0.0
  {
  }

  /** The sign of one catalog answer's contribution on each axis. */
  lemma CatalogContribution(a: UserAnswer, d: Dimension)
    requires FromCatalog(a)
    ensures -2.0 <= a.value <= 2.0
    ensures d == EI ==> Contribution(a, d) >= 0.0
    ensures d != EI ==> Contribution(a, d) <= 0.0
    ensures Contribution(a, d) == 0.0 <==> Hit(a, d) == 0 || a.value == 0.0
  {
    CatalogAnswerShaped(a);
    ShapedContribution(a, d);
  }

  /** Summed over any run of catalog-shaped answers, the same signs hold, and an SN/TF/JP sum is 0 exactly when every answer on it was neutral. */
  lemma {:induction false} CatalogAxisSum(answers: seq<UserAnswer>, d: Dimension)
    requires forall k :: 0 <= k < |answers| ==> Shaped(answers[k])
    ensures d == EI ==> AxisSum(answers, d) >= 0.0
    ensures d != EI ==> AxisSum(answers, d) <= 0.0
    ensures d != EI ==> (AxisSum(answers, d) == 0.0 <==> Neutral(answers, d))
  {
    if answers != [] {
      var last := answers[|answers| - 1];
      var init := answers[..|answers| - 1];
      CatalogAxisSum(init, d);
      ShapedContribution(last, d);
      assert answers == init + [last];
      NeutralSnoc(init, last, d);
    }
  }

  /** Every answer on axis `d` carries the value 0. */
  predicate Neutral(answers: seq<UserAnswer>, d: Dimension)
  {
    forall a :: a in answers && Hit(a, d) == 1 ==> a.value == 0.0
  }

  lemma NeutralSnoc(init: seq<UserAnswer>, last: UserAnswer, d: Dimension)
    ensures Neutral(init + [last], d) <==> Neutral(init, d) && (Hit(last, d) == 1 ==> last.value == 0.0)
  {
    assert forall a :: a in init + [last] <==> a in init || a == last;
  }

  lemma QuotientSign(sum: real, count: real)
    requires count > 0.0
    ensures sum / count >= 0.0 <==> sum >= 0.0
  {
    assert sum / count * count == sum;
  }

  /** On catalog-shaped answers an axis score is non-negative exactly on EI or on an all-neutral axis. */
  lemma AxisScoreSign(answers: seq<UserAnswer>, d: Dimension)
    requires forall k :: 0 <= k < |answers| ==> Shaped(answers[k])
    ensures ScoresOf(answers).Get(d) >= 0.0 <==> (d == EI || Neutral(answers, d))
  {
    CatalogAxisSum(answers, d);
    NormalizedScore(answers, d);
    if AxisCount(answers, d) > 0 {
      QuotientSign(AxisSum(answers, d), AxisCount(answers, d) as real);
    } else {
      UnansweredAxisSumsToZero(answers, d);
      NoHitsNeutral(answers, d);
    }
  }

  /** On catalog-shaped answers the spelled code starts with "E", and its later letters are N, F, P exactly on all-neutral axes. */
  lemma ShapedLetters(answers: seq<UserAnswer>)
    requires forall k :: 0 <= k < |answers| ==> Shaped(answers[k])
    ensures Letters(ScoresOf(answers))[0] == 'E'
    ensures forall i :: 1 <= i < 4 ==>
      (Letters(ScoresOf(answers))[i] == AddingPole(Dimensions[i])[0] <==> Neutral(answers, Dimensions[i]))
  {
    var s := ScoresOf(answers);
    forall d ensures s.Get(d) >= 0.0 <==> (d == EI || Neutral(answers, d)) {
      AxisScoreSign(answers, d);
    }
  }

  /**
   * For answers drawn from the catalog the code starts with "E", and its
   * letter on SN, TF and JP is N, F or P exactly when every answer on that
   * axis was the neutral middle option.
   */
  lemma CatalogCodes(answers: seq<UserAnswer>)
    requires forall a :: a in answers ==> FromCatalog(a)
    ensures DetermineMbtiType(ScoresOf(answers))[0] == 'E'
    ensures forall i :: 1 <= i < 4 ==>
      (DetermineMbtiType(ScoresOf(answers))[i] == AddingPole(Dimensions[i])[0] <==> Neutral(answers, Dimensions[i]))
  {
    forall k | 0 <= k < |answers| ensures Shaped(answers[k]) {
      CatalogAnswerShaped(answers[k]);
    }
    ShapedLetters(answers);
  }

  /** An axis nobody answered is vacuously neutral. */
  lemma {:induction false} NoHitsNeutral(answers: seq<UserAnswer>, d: Dimension)
    requires AxisCount(answers, d) == 0
    ensures Neutral(answers, d)
  {
    if answers != [] {
      var init := answers[..|answers| - 1];
      NoHitsNeutral(init, d);
      assert answers == init + [answers[|answers| - 1]];
      NeutralSnoc(init, answers[|answers| - 1], d);
    }
  }
}
