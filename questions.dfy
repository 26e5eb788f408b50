/**
 * The questionnaire: eighteen questions, each tagged with the dimension pair
 * it measures and offering three answers that carry a signed value and a
 * pole letter. Prompt and answer texts are not modelled.
 */
module Questions {
  import opened Types
  import opened Builtins

  /** A catalog answer. Every value in the catalog is an integer. */
  datatype Answer = Answer(id: string, value: int, dimension: string)

  datatype Question = Question(id: string, dimension: Dimension, answers: seq<Answer>)

  /** The catalog, in order. */
  const Questions: seq<Question> := [
    Question("q1", EI, [Answer("q1a1", 2, "E"), Answer("q1a2", 0, "E"), Answer("q1a3", -2, "I")]),
    Question("q2", EI, [Answer("q2a1", 2, "E"), Answer("q2a2", 0, "E"), Answer("q2a3", -2, "I")]),
    Question("q3", EI, [Answer("q3a1", 2, "E"), Answer("q3a2", 0, "E"), Answer("q3a3", -2, "I")]),
    Question("q4", EI, [Answer("q4a1", 2, "E"), Answer("q4a2", 0, "E"), Answer("q4a3", -2, "I")]),
    Question("q5", SN, [Answer("q5a1", 2, "S"), Answer("q5a2", 0, "S"), Answer("q5a3", -2, "N")]),
    Question("q6", SN, [Answer("q6a1", 2, "S"), Answer("q6a2", 0, "S"), Answer("q6a3", -2, "N")]),
    Question("q7", SN, [Answer("q7a1", 2, "S"), Answer("q7a2", 0, "S"), Answer("q7a3", -2, "N")]),
    Question("q8", SN, [Answer("q8a1", 2, "S"), Answer("q8a2", 0, "S"), Answer("q8a3", -2, "N")]),
    Question("q9", SN, [Answer("q9a1", 2, "S"), Answer("q9a2", 0, "S"), Answer("q9a3", -2, "N")]),
    Question("q10", TF, [Answer("q10a1", 2, "T"), Answer("q10a2", 0, "T"), Answer("q10a3", -2, "F")]),
    Question("q11", TF, [Answer("q11a1", 2, "T"), Answer("q11a2", 0, "T"), Answer("q11a3", -2, "F")]),
    Question("q12", TF, [Answer("q12a1", 2, "T"), Answer("q12a2", 0, "T"), Answer("q12a3", -2, "F")]),
    Question("q13", TF, [Answer("q13a1", 2, "T"), Answer("q13a2", 0, "T"), Answer("q13a3", -2, "F")]),
    Question("q14", TF, [Answer("q14a1", 2, "T"), Answer("q14a2", 0, "T"), Answer("q14a3", -2, "F")]),
    Question("q15", JP, [Answer("q15a1", 2, "J"), Answer("q15a2", 0, "J"), Answer("q15a3", -2, "P")]),
    Question("q16", JP, [Answer("q16a1", 2, "J"), Answer("q16a2", 0, "J"), Answer("q16a3", -2, "P")]),
    Question("q17", JP, [Answer("q17a1", 2, "J"), Answer("q17a2", 0, "J"), Answer("q17a3", -2, "P")]),
    Question("q18", JP, [Answer("q18a1", 2, "J"), Answer("q18a2", 0, "J"), Answer("q18a3", -2, "P")])
  ]

  /** `totalQuestions`. */
  function TotalQuestions(): nat
  {
    |Questions|
  }

  /** The questions of `qs` tagged `d`, in their original order (`filter`). */
  function FilterByDimension(qs: seq<Question>, d: Dimension): (r: seq<Question>)
    ensures |r| <= |qs|
    ensures forall k :: 0 <= k < |r| ==> r[k].dimension == d
  {
    if qs == [] then []
    else if qs[0].dimension == d then [qs[0]] + FilterByDimension(qs[1..], d)
    else FilterByDimension(qs[1..], d)
  }

  /** A filtered list holds exactly the questions of the input that carry the tag. */
  lemma {:induction false} FilterMembership(qs: seq<Question>, d: Dimension, q: Question)
    ensures q in FilterByDimension(qs, d) <==> q in qs && q.dimension == d
  {
    if qs != [] {
      FilterMembership(qs[1..], d, q);
      assert qs == [qs[0]] + qs[1..];
    }
  }

  /** `questionsByDimension[d]`. */
  function QuestionsByDimension(d: Dimension): (qs: seq<Question>)
    ensures forall k :: 0 <= k < |qs| ==> qs[k].dimension == d
  {
    FilterByDimension(Questions, d)
  }

  /** The shape every catalog question follows. */
  predicate WellShaped(q: Question)
  {
    && |q.answers| == 3
    && q.answers[0] == Answer(q.id + "a1", 2, FirstPole(q.dimension))
    && q.answers[1] == Answer(q.id + "a2", 0, FirstPole(q.dimension))
    && q.answers[2] == Answer(q.id + "a3", -2, SecondPole(q.dimension))
  }

  /** The dimension of the question at position `i`: 4 EI, then 5 SN, 5 TF and 4 JP. */
  function DimensionAt(i: nat): Dimension
  {
    if i < 4 then EI else if i < 9 then SN else if i < 14 then TF else JP
  }

  /**
   * The catalog has eighteen questions grouped 4 EI, 5 SN, 5 TF, 4 JP, and the
   * answers of every question are valued 2, 0, -2 and tagged with the
   * first, first and second letter of its pair.
   */
  lemma CatalogShape()
    ensures |Questions| == 18
    ensures forall i :: 0 <= i < |Questions| ==>
      Questions[i].dimension == DimensionAt(i) && WellShaped(Questions[i])
  {
    forall i | 0 <= i < |Questions|
      ensures Questions[i].dimension == DimensionAt(i) && WellShaped(Questions[i])
    {
      if i < 4 {
        ShapeEI(i);
      } else if i < 9 {
        ShapeSN(i);
      } else if i < 14 {
        ShapeTF(i);
      } else {
        ShapeJP(i);
      }
    }
  }

  lemma ShapeEI(i: nat)
    requires i < 4
    ensures Questions[i].dimension == DimensionAt(i) && WellShaped(Questions[i])
  {
    assert i == 0 || i == 1 || i == 2 || i == 3;
  }

  lemma ShapeSN(i: nat)
    requires 4 <= i < 9
    ensures Questions[i].dimension == DimensionAt(i) && WellShaped(Questions[i])
  {
    assert i == 4 || i == 5 || i == 6 || i == 7 || i == 8;
  }

  lemma ShapeTF(i: nat)
    requires 9 <= i < 14
    ensures Questions[i].dimension == DimensionAt(i) && WellShaped(Questions[i])
  {
    assert i == 9 || i == 10 || i == 11 || i == 12 || i == 13;
  }

  lemma ShapeJP(i: nat)
    requires 14 <= i < 18
    ensures Questions[i].dimension == DimensionAt(i) && WellShaped(Questions[i])
  {
    assert i == 14 || i == 15 || i == 16 || i == 17;
  }

  /** The catalog has eighteen questions grouped 4 EI, 5 SN, 5 TF, 4 JP. */
  lemma CatalogDimensions()
    ensures |Questions| == 18
    ensures forall i :: 0 <= i < |Questions| ==> Questions[i].dimension == DimensionAt(i)
  {
    forall i | 0 <= i < |Questions| ensures Questions[i].dimension == DimensionAt(i) {
      assert i == 0 || i == 1 || i == 2 || i == 3 || i == 4 || i == 5 || i == 6 || i == 7 || i == 8 || i == 9 || i == 10 || i == 11 || i == 12 || i == 13 || i == 14 || i == 15 || i == 16 || i == 17;
    }
  }

  /** Question `i` is named `q<i+1>`. */
  lemma QuestionIds()
    ensures forall i :: 0 <= i < |Questions| ==> Questions[i].id == "q" + NatToString(i + 1)
  {
    forall i | 0 <= i < |Questions| ensures Questions[i].id == "q" + NatToString(i + 1) {
      assert i == 0 || i == 1 || i == 2 || i == 3 || i == 4 || i == 5 || i == 6 || i == 7 || i == 8 || i == 9 || i == 10 || i == 11 || i == 12 || i == 13 || i == 14 || i == 15 || i == 16 || i == 17;
    }
  }

  /** No two questions share an id. */
  lemma QuestionIdsDistinct()
    ensures forall i, j :: 0 <= i < |Questions| && 0 <= j < |Questions| && Questions[i].id == Questions[j].id ==> i == j
  {
    QuestionIds();
    forall i, j | 0 <= i < |Questions| && 0 <= j < |Questions| && Questions[i].id == Questions[j].id
      ensures i == j
    {
      assert NatToString(i + 1) == Questions[i].id[1..];
      assert NatToString(j + 1) == Questions[j].id[1..];
      NatToStringInjective(i + 1, j + 1);
    }
  }

  /** The id of answer `j` of question `i`. */
  lemma AnswerId(i: nat, j: nat)
    requires i < |Questions| && j < |Questions[i].answers|
    ensures Questions[i].answers[j].id == Questions[i].id + "a" + [Digit(j + 1)]
  {
    CatalogShape();
  }

  /** Every answer id starts with its question's id, and no two answers in the catalog share an id. */
  lemma AnswerIdsUnique()
    ensures forall i, j :: 0 <= i < |Questions| && 0 <= j < |Questions[i].answers| ==>
      Questions[i].id <= Questions[i].answers[j].id
    ensures forall i, j, i', j' ::
      && 0 <= i < |Questions| && 0 <= j < |Questions[i].answers|
      && 0 <= i' < |Questions| && 0 <= j' < |Questions[i'].answers|
      && Questions[i].answers[j].id == Questions[i'].answers[j'].id
      ==> i == i' && j == j'
  {
    forall i, j | 0 <= i < |Questions| && 0 <= j < |Questions[i].answers|
      ensures Questions[i].id <= Questions[i].answers[j].id
    {
      AnswerId(i, j);
    }
    forall i, j, i', j' |
      && 0 <= i < |Questions| && 0 <= j < |Questions[i].answers|
      && 0 <= i' < |Questions| && 0 <= j' < |Questions[i'].answers|
      && Questions[i].answers[j].id == Questions[i'].answers[j'].id
      ensures i == i' && j == j'
    {
      var a, b := Questions[i].answers[j].id, Questions[i'].answers[j'].id;
      AnswerId(i, j);
      AnswerId(i', j');
      assert a[|a| - 1] == b[|b| - 1];
      assert Questions[i].id == a[..|a| - 2];
      assert Questions[i'].id == b[..|b| - 2];
      QuestionIdsDistinct();
    }
  }

  /** Every answer's pole letter belongs to its question's dimension pair. */
  lemma AnswerPolesMatchDimension()
    ensures forall i, j :: 0 <= i < |Questions| && 0 <= j < |Questions[i].answers| ==>
      Questions[i].answers[j].dimension in {FirstPole(Questions[i].dimension), SecondPole(Questions[i].dimension)}
  {
    CatalogShape();
  }

  lemma {:induction false} FilterAppend(xs: seq<Question>, ys: seq<Question>, d: Dimension)
    ensures FilterByDimension(xs + ys, d) == FilterByDimension(xs, d) + FilterByDimension(ys, d)
  {
    if xs != [] {
      assert (xs + ys)[0] == xs[0];
      assert (xs + ys)[1..] == xs[1..] + ys;
      FilterAppend(xs[1..], ys, d);
    } else {
      assert xs + ys == ys;
    }
  }

  lemma {:induction false} FilterUniform(qs: seq<Question>, tag: Dimension, d: Dimension)
    requires forall k :: 0 <= k < |qs| ==> qs[k].dimension == tag
    ensures FilterByDimension(qs, d) == if d == tag then qs else []
  {
    if qs != [] {
      FilterUniform(qs[1..], tag, d);
    }
  }

  /** Where the run of questions tagged `d` starts and ends in the catalog. */
  function RunStart(d: Dimension): nat
  {
    match d
    case EI => 0
    case SN => 4
    case TF => 9
    case JP => 14
  }

  function RunEnd(d: Dimension): nat
  {
    match d
    case EI => 4
    case SN => 9
    case TF => 14
    case JP => 18
  }

  /** Position `k` lies in the run of `d` exactly when it is tagged `d`. */
  lemma RunBounds(k: nat, d: Dimension)
    requires k < 18
    ensures RunStart(d) <= RunEnd(d) <= 18
    ensures DimensionAt(k) == d <==> RunStart(d) <= k < RunEnd(d)
  {
  }

  /** Filtering a sequence laid out like the catalog picks out one run. */
  lemma FilterRuns(qs: seq<Question>, d: Dimension)
    requires |qs| == 18
    requires forall k :: 0 <= k < 18 ==> qs[k].dimension == DimensionAt(k)
    ensures FilterByDimension(qs, d) == qs[RunStart(d)..RunEnd(d)]
  {
    var lo, hi := RunStart(d), RunEnd(d);
    RunBounds(0, d);
    RunParts(qs, d);
    assert qs == qs[..lo] + qs[lo..hi] + qs[hi..];
    FilterThreeParts(qs[..lo], qs[lo..hi], qs[hi..], d);
  }

  /** In a sequence laid out like the catalog, the run of `d` carries `d` and the parts around it do not. */
  lemma RunParts(qs: seq<Question>, d: Dimension)
    requires |qs| == 18
    requires forall k :: 0 <= k < 18 ==> qs[k].dimension == DimensionAt(k)
    ensures RunStart(d) <= RunEnd(d) <= 18
    ensures forall k :: 0 <= k < RunStart(d) ==> qs[..RunStart(d)][k].dimension != d
    ensures forall k :: 0 <= k < RunEnd(d) - RunStart(d) ==> qs[RunStart(d)..RunEnd(d)][k].dimension == d
    ensures forall k :: 0 <= k < 18 - RunEnd(d) ==> qs[RunEnd(d)..][k].dimension != d
  {
    var lo, hi := RunStart(d), RunEnd(d);
    RunBounds(0, d);
    forall k | 0 <= k < lo ensures qs[..lo][k].dimension != d {
      assert qs[..lo][k] == qs[k];
      RunBounds(k, d);
    }
    forall k | 0 <= k < hi - lo ensures qs[lo..hi][k].dimension == d {
      assert qs[lo..hi][k] == qs[lo + k];
      RunBounds(lo + k, d);
    }
    forall k | 0 <= k < 18 - hi ensures qs[hi..][k].dimension != d {
      assert qs[hi..][k] == qs[hi + k];
      RunBounds(hi + k, d);
    }
  }

  /** Filtering keeps a middle part tagged `d` and drops the parts around it, which carry other tags. */
  lemma FilterThreeParts(before: seq<Question>, run: seq<Question>, after: seq<Question>, d: Dimension)
    requires forall k :: 0 <= k < |before| ==> before[k].dimension != d
    requires forall k :: 0 <= k < |run| ==> run[k].dimension == d
    requires forall k :: 0 <= k < |after| ==> after[k].dimension != d
    ensures FilterByDimension(before + run + after, d) == run
  {
    FilterNone(before, d);
    FilterUniform(run, d, d);
    FilterNone(after, d);
    FilterAppend(before + run, after, d);
    FilterAppend(before, run, d);
  }

  lemma {:induction false} FilterNone(qs: seq<Question>, d: Dimension)
    requires forall k :: 0 <= k < |qs| ==> qs[k].dimension != d
    ensures FilterByDimension(qs, d) == []
  {
    if qs != [] {
      FilterNone(qs[1..], d);
    }
  }

  /**
   * `questionsByDimension` splits the catalog into its four consecutive runs:
   * questions 1-4, 5-9, 10-14 and 15-18.
   */
  lemma QuestionsByDimensionRuns(d: Dimension)
    ensures QuestionsByDimension(d) == Questions[RunStart(d)..RunEnd(d)]
  {
    CatalogDimensions();
    FilterRuns(Questions, d);
  }

  /** Every question belongs to exactly one of the four groups, so the group sizes add up to the total. */
  lemma GroupsAddUp()
    ensures TotalQuestions() == |QuestionsByDimension(EI)| + |QuestionsByDimension(SN)|
      + |QuestionsByDimension(TF)| + |QuestionsByDimension(JP)|
  {
    CatalogDimensions();
    QuestionsByDimensionRuns(EI);
    QuestionsByDimensionRuns(SN);
    QuestionsByDimensionRuns(TF);
    QuestionsByDimensionRuns(JP);
  }

  /** A group holds exactly the catalog questions carrying its tag. */
  lemma GroupMembers(d: Dimension)
    ensures forall q :: q in QuestionsByDimension(d) <==> q in Questions && q.dimension == d
  {
    forall q ensures q in QuestionsByDimension(d) <==> q in Questions && q.dimension == d {
      FilterMembership(Questions, d, q);
    }
  }

  /** Every catalog question lies in the group its tag names and in no other. */
  lemma EachQuestionInItsGroup(q: Question, d: Dimension)
    requires q in Questions
    ensures q in QuestionsByDimension(d) <==> q.dimension == d
  {
    FilterMembership(Questions, d, q);
  }
}
