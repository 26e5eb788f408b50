/**
 * The questionnaire session: the index of the question on screen, the
 * answers recorded so far, and the completion flag and result. Answering a
 * question replaces that question's earlier answer by dropping it and
 * appending the new one; navigation is clamped to the catalog; a result is
 * computed only past the completeness gate.
 */
module MbtiTest {
  import opened Wrappers
  import opened Types
  import opened Builtins
  import Questions
  import DataIndex
  import MbtiCalculator
  import CatalogScoring

  /** The number of questions, `questions.length`. */
  function Total(): (n: nat)
    ensures n == |Questions.Questions| == 18
  {
    Questions.CatalogDimensions();
    DataIndex.GetQuestionCount()
  }

  /** At most one answer per question. */
  predicate UniqueQuestionIds(answers: seq<UserAnswer>)
  {
    forall i, j :: 0 <= i < j < |answers| ==> answers[i].questionId != answers[j].questionId
  }

  /** The answers for other questions, in their order (`filter`). */
  function WithoutQuestion(answers: seq<UserAnswer>, questionId: string): (r: seq<UserAnswer>)
    ensures |r| <= |answers|
    ensures forall a :: a in r <==> a in answers && a.questionId != questionId
  {
    if answers == [] then []
    else if answers[0].questionId == questionId then WithoutQuestion(answers[1..], questionId)
    else [answers[0]] + WithoutQuestion(answers[1..], questionId)
  }

  /** Drop the earlier answer to the same question and append the new one. */
  function Replace(answers: seq<UserAnswer>, a: UserAnswer): seq<UserAnswer>
  {
    WithoutQuestion(answers, a.questionId) + [a]
  }

  lemma {:induction false} WithoutQuestionAppend(xs: seq<UserAnswer>, ys: seq<UserAnswer>, questionId: string)
    ensures WithoutQuestion(xs + ys, questionId) == WithoutQuestion(xs, questionId) + WithoutQuestion(ys, questionId)
  {
    if xs == [] {
      assert xs + ys == ys;
    } else {
      var zs := xs + ys;
      assert zs[0] == xs[0] && zs[1..] == xs[1..] + ys;
      WithoutQuestionAppend(xs[1..], ys, questionId);
      if xs[0].questionId == questionId {
        assert WithoutQuestion(zs, questionId) == WithoutQuestion(xs[1..] + ys, questionId);
      } else {
        assert WithoutQuestion(zs, questionId) == [xs[0]] + WithoutQuestion(xs[1..] + ys, questionId);
      }
    }
  }

  /** Filtering twice by the same id is filtering once. */
  lemma {:induction false} WithoutQuestionIdempotent(answers: seq<UserAnswer>, questionId: string)
    ensures WithoutQuestion(WithoutQuestion(answers, questionId), questionId) == WithoutQuestion(answers, questionId)
  {
    if answers != [] {
      WithoutQuestionIdempotent(answers[1..], questionId);
    }
  }

  /** Filtering keeps the one-answer-per-question property. */
  lemma {:induction false} WithoutQuestionUnique(answers: seq<UserAnswer>, questionId: string)
    requires UniqueQuestionIds(answers)
    ensures UniqueQuestionIds(WithoutQuestion(answers, questionId))
  {
    if answers != [] {
      assert UniqueQuestionIds(answers[1..]) by {
        forall i, j | 0 <= i < j < |answers[1..]| ensures answers[1..][i].questionId != answers[1..][j].questionId {
          assert answers[1..][i] == answers[i + 1] && answers[1..][j] == answers[j + 1];
        }
      }
      WithoutQuestionUnique(answers[1..], questionId);
      var rest := WithoutQuestion(answers[1..], questionId);
      forall a | a in rest ensures a.questionId != answers[0].questionId {
        var k :| 0 <= k < |answers[1..]| && answers[1..][k] == a;
        assert answers[k + 1] == a;
      }
    }
  }

  /**
   * Answering replaces: the new answer is last and is the only one for its
   * question; the answers for other questions keep their order; and
   * one-answer-per-question is preserved.
   */
  lemma ReplaceSpec(answers: seq<UserAnswer>, a: UserAnswer)
    ensures var r := Replace(answers, a);
      && |r| > 0 && r[|r| - 1] == a
      && (forall i :: 0 <= i < |r| - 1 ==> r[i].questionId != a.questionId)
      && WithoutQuestion(r, a.questionId) == WithoutQuestion(answers, a.questionId)
      && (forall x :: x in r <==> x == a || (x in answers && x.questionId != a.questionId))
      && |r| <= |answers| + 1
    ensures UniqueQuestionIds(answers) ==> UniqueQuestionIds(Replace(answers, a))
  {
    var w := WithoutQuestion(answers, a.questionId);
    var r := Replace(answers, a);
    forall i | 0 <= i < |r| - 1 ensures r[i].questionId != a.questionId {
      assert r[i] == w[i] && w[i] in w;
    }
    WithoutQuestionAppend(w, [a], a.questionId);
    WithoutQuestionIdempotent(answers, a.questionId);
    assert WithoutQuestion([a], a.questionId) == [] by {
      assert [a][1..] == [];
    }
    assert w + [] == w;
    if UniqueQuestionIds(answers) {
      WithoutQuestionUnique(answers, a.questionId);
    }
  }

  /** After answering q1 and q2 and then re-answering q1, position 0 holds q2's answer. */
  lemma ReanswerReorders(first: UserAnswer, second: UserAnswer, again: UserAnswer)
    requires first.questionId == "q1" && second.questionId == "q2" && again.questionId == "q1"
    ensures Replace(Replace(Replace([], first), second), again) == [second, again]
  {
    assert [first][1..] == [];
    assert [first, second][1..] == [second];
    assert [second][1..] == [];
  }

  /** The first option of a question with the given id (`find`). */
  function FindOption(q: Questions.Question, answerId: string): (r: Option<Questions.Answer>)
    ensures r.None? <==> forall j :: 0 <= j < |q.answers| ==> q.answers[j].id != answerId
    ensures r.Some? ==> exists j :: 0 <= j < |q.answers| && q.answers[j] == r.value && r.value.id == answerId
  {
    FindFrom(q.answers, answerId)
  }

  function FindFrom(options: seq<Questions.Answer>, answerId: string): (r: Option<Questions.Answer>)
    ensures r.None? <==> forall j :: 0 <= j < |options| ==> options[j].id != answerId
    ensures r.Some? ==> exists j :: 0 <= j < |options| && options[j] == r.value && r.value.id == answerId
  {
    if options == [] then None
    else if options[0].id == answerId then Some(options[0])
    else
      var r := FindFrom(options[1..], answerId);
      assert forall j :: 0 <= j < |options[1..]| ==> options[1..][j] == options[j + 1];
      r
  }

  /** `TestProgress`. */
  datatype Progress = Progress(currentQuestion: int, totalQuestions: nat, answeredQuestions: nat, progressPercentage: int)

  class TestSession {
    var currentQuestionIndex: int
    var answers: seq<UserAnswer>
    var isCompleted: bool
    var result: Option<MbtiType>

    /**
     * What every state reached from the initial one satisfies: the index is
     * on a question, each question has at most one answer, every answer was
     * recorded from a catalog option, and a completed session has a result.
     */
    predicate Valid()
      reads this
    {
      && 0 <= currentQuestionIndex < Total()
      && UniqueQuestionIds(answers)
      && (forall a :: a in answers ==> CatalogScoring.FromCatalog(a))
      && (isCompleted ==> result.Some?)
    }

    /** `initialTestState`. */
    constructor()
      ensures currentQuestionIndex == 0 && answers == [] && !isCompleted && result == None
      ensures Valid()
    {
      currentQuestionIndex := 0;
      answers := [];
      isCompleted := false;
      result := None;
    }

    /** `questions[index] || null`. */
    function CurrentQuestion(): (q: Option<Questions.Question>)
      reads this
      ensures q.Some? <==> 0 <= currentQuestionIndex < 18
      ensures q.Some? ==> q.value == Questions.Questions[currentQuestionIndex]
      ensures q.Some? ==> q.value.id == "q" + NatToString(currentQuestionIndex + 1)
    {
      Questions.QuestionIds();
      if 0 <= currentQuestionIndex < Total() then Some(Questions.Questions[currentQuestionIndex]) else None
    }

    function GetProgress(): (p: Progress)
      reads this
      ensures p.totalQuestions == 18 && p.answeredQuestions == |answers|
      ensures p.currentQuestion == currentQuestionIndex + 1
      ensures p.progressPercentage == CompletionPercentage()
    {
      Progress(currentQuestionIndex + 1, Total(), |answers|, Percent(|answers|, Total()))
    }

    predicate CanGoBack()
      reads this
    {
      currentQuestionIndex > 0
    }

    predicate CanGoForward()
      reads this
    {
      currentQuestionIndex < Total() - 1
    }

    predicate IsLastQuestion()
      reads this
    {
      currentQuestionIndex == Total() - 1
    }

    function CompletionPercentage(): (c: int)
      reads this
      ensures 0 <= c
      ensures c >= 70 <==> |answers| >= 13
    {
      MbtiCalculator.CompletenessGate(|answers|);
      Percent(|answers|, Total())
    }

    /** Whether the question on screen has a recorded answer; only a question on screen can have one. */
    predicate HasAnsweredCurrentQuestion()
      reads this
      ensures HasAnsweredCurrentQuestion() ==> 0 <= currentQuestionIndex < 18 && |answers| > 0
    {
      match CurrentQuestion()
      case None => false
      case Some(q) => exists a :: a in answers && a.questionId == q.id
    }

    /**
     * Going forward and being on the last question exclude each other; on a
     * question, exactly one of them holds; going back is impossible only at
     * the first question.
     */
    lemma Flags()
      ensures !(CanGoForward() && IsLastQuestion())
      ensures 0 <= currentQuestionIndex < 18 ==> (CanGoForward() || IsLastQuestion())
      ensures 0 <= currentQuestionIndex < 18 ==> (CanGoBack() <==> currentQuestionIndex != 0)
      ensures IsLastQuestion() <==> currentQuestionIndex == 17
    {
    }

    /** `answerQuestion`, without the timed auto-advance. */
    method AnswerQuestion(answerId: string)
      modifies this
      ensures currentQuestionIndex == old(currentQuestionIndex) && isCompleted == old(isCompleted) && result == old(result)
      ensures old(CurrentQuestion()).None? ==> answers == old(answers)
      ensures old(CurrentQuestion()).Some? && FindOption(old(CurrentQuestion()).value, answerId).None? ==> answers == old(answers)
      ensures old(CurrentQuestion()).Some? && FindOption(old(CurrentQuestion()).value, answerId).Some? ==>
        answers == Replace(old(answers), CatalogScoring.Record(old(CurrentQuestion()).value, FindOption(old(CurrentQuestion()).value, answerId).value))
      ensures old(Valid()) ==> Valid()
    {
      var currentQuestion := CurrentQuestion();
      if currentQuestion.None? {
        return;
      }
      var q := currentQuestion.value;
      var selectedAnswer := FindOption(q, answerId);
      if selectedAnswer.None? {
        return;
      }
      var newAnswer := CatalogScoring.Record(q, selectedAnswer.value);
      ghost var before := answers;
      var filteredAnswers := WithoutQuestion(answers, q.id);
      answers := filteredAnswers + [newAnswer];
      ReplaceSpec(before, newAnswer);
      assert CatalogScoring.FromCatalog(newAnswer) by {
        var j :| 0 <= j < |q.answers| && q.answers[j] == selectedAnswer.value && selectedAnswer.value.id == answerId;
        assert newAnswer == CatalogScoring.Record(Questions.Questions[currentQuestionIndex], Questions.Questions[currentQuestionIndex].answers[j]);
      }
    }

    /** `goToPreviousQuestion`: one back, not below the first question. */
    method GoToPreviousQuestion()
      modifies this
      ensures currentQuestionIndex == if old(currentQuestionIndex) - 1 < 0 then 0 else old(currentQuestionIndex) - 1
      ensures answers == old(answers) && isCompleted == old(isCompleted) && result == old(result)
      ensures old(Valid()) ==> Valid()
      ensures old(Valid()) ==> (currentQuestionIndex == old(currentQuestionIndex) <==> !old(CanGoBack()))
    {
      currentQuestionIndex := if currentQuestionIndex - 1 < 0 then 0 else currentQuestionIndex - 1;
    }

    /** `goToNextQuestion`: one forward, not past the last question. */
    method GoToNextQuestion()
      modifies this
      ensures currentQuestionIndex == if old(currentQuestionIndex) + 1 > 17 then 17 else old(currentQuestionIndex) + 1
      ensures answers == old(answers) && isCompleted == old(isCompleted) && result == old(result)
      ensures old(Valid()) ==> Valid()
      ensures old(Valid()) ==> (currentQuestionIndex == old(currentQuestionIndex) <==> !old(CanGoForward()))
    {
      var last := Total() - 1;
      currentQuestionIndex := if currentQuestionIndex + 1 > last then last else currentQuestionIndex + 1;
    }

    /** `goToQuestion`: jumps only to an index on the catalog. */
    method GoToQuestion(index: int)
      modifies this
      ensures currentQuestionIndex == if 0 <= index < 18 then index else old(currentQuestionIndex)
      ensures answers == old(answers) && isCompleted == old(isCompleted) && result == old(result)
      ensures old(Valid()) ==> Valid()
    {
      if index >= 0 && index < Total() {
        currentQuestionIndex := index;
      }
    }

    /**
     * `calculateResult`: fails below 70% completeness (13 of 18 answers);
     * otherwise scores the answers, marks the session completed and stores
     * the type. A failed validation above the gate only warns.
     */
    method CalculateResult() returns (r: Result<(MbtiCalculator.MbtiResult, MbtiType)>)
      modifies this
      ensures r.Err? <==> |old(answers)| < 13
      ensures r.Err? ==> isCompleted == old(isCompleted) && result == old(result)
      ensures answers == old(answers) && currentQuestionIndex == old(currentQuestionIndex)
      ensures r.Ok? ==>
        && MbtiCalculator.ProcessMbtiTest(answers) == Ok(r.value.0)
        && r.value.1.code == r.value.0.typeCode
        && DataIndex.GetMbtiType(r.value.0.typeCode) == Some(r.value.1)
        && isCompleted && result == Some(r.value.1)
      ensures old(Valid()) ==> Valid()
      ensures old(Valid()) && r.Ok? ==> r.value.0.typeCode[0] == 'E'
    {
      r := Evaluate(answers);
      if r.Ok? {
        if Valid() {
          CatalogResultStartsWithE(answers, r.value.0);
        }
        isCompleted := true;
        result := Some(r.value.1);
      }
    }

    /** `resetTest`, without clearing storage. */
    method ResetTest()
      modifies this
      ensures currentQuestionIndex == 0 && answers == [] && !isCompleted && result == None
      ensures Valid()
    {
      currentQuestionIndex := 0;
      answers := [];
      isCompleted := false;
      result := None;
    }
  }

  /**
   * The computation behind `calculateResult`: the completeness gate, the
   * scoring and the type lookup, which never misses for a scored code.
   */
  method Evaluate(answers: seq<UserAnswer>) returns (r: Result<(MbtiCalculator.MbtiResult, MbtiType)>)
    ensures r.Err? <==> |answers| < 13
    ensures r.Ok? ==>
      && MbtiCalculator.ProcessMbtiTest(answers) == Ok(r.value.0)
      && r.value.1.code == r.value.0.typeCode
      && DataIndex.GetMbtiType(r.value.0.typeCode) == Some(r.value.1)
  {
    var validation := MbtiCalculator.ValidateAnswers(answers);
    if !validation.isValid {
      if validation.completeness < 70 {
        return Err("Test incomplete: " + IntToString(validation.completeness) + "% completed. At least 70% required.");
      }
    }
    match MbtiCalculator.ProcessMbtiTest(answers)
    case Err(message) =>
      return Err(message);
    case Ok(processed) =>
      match DataIndex.GetMbtiType(processed.typeCode)
      case None =>
        return Err("MBTI type data not found for: " + processed.typeCode);
      case Some(mbtiTypeData) =>
        r := Ok((processed, mbtiTypeData));
  }

  /** A result scored from catalog answers is always an extravert type. */
  lemma CatalogResultStartsWithE(answers: seq<UserAnswer>, processed: MbtiCalculator.MbtiResult)
    requires forall a :: a in answers ==> CatalogScoring.FromCatalog(a)
    requires MbtiCalculator.ProcessMbtiTest(answers) == Ok(processed)
    ensures processed.typeCode[0] == 'E'
  {
    CatalogScoring.CatalogCodes(answers);
  }

  /** A completeness percentage as the message shows it. */
  function IntToString(n: int): string
  {
    if n < 0 then "-" + NatToString(-n) else NatToString(n)
  }
}
