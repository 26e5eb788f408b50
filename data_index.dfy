/**
 * The data accessors: code validation and lookup over the type table, and
 * the question-group and question-count readers.
 */
module DataIndex {
  import opened Wrappers
  import opened Types
  import MbtiTypes
  import Questions

  /** `validateMBTICode`: membership among the declared keys. */
  function ValidateMbtiCode(code: string): (ok: bool)
    ensures ok <==> code in MbtiTypes.MbtiTypes()
    ensures ok <==> IsMbtiCode(code)
  {
    MbtiTypes.InTableIffListed(code);
    MbtiTypes.KeysAreTheSixteenCodes();
    code in MbtiTypes.KeyOrder()
  }

  /** `getMBTIType`: the entry stored under an own key, `null` for any other string. */
  function GetMbtiType(code: string): (r: Option<MbtiType>)
    ensures r.Some? <==> IsMbtiCode(code)
    ensures r.Some? ==> r.value.code == code && MbtiTypes.WellFormedEntry(r.value)
    ensures r.Some? ==> exists i :: 0 <= i < |MbtiTypes.Entries| && MbtiTypes.Entries[i] == (code, r.value)
  {
    MbtiTypes.KeysAreTheSixteenCodes();
    MbtiTypes.EntriesWellFormed();
    if code in MbtiTypes.MbtiTypes() then Some(MbtiTypes.MbtiTypes()[code]) else None
  }

  /** `getAllMBTICodes`: the keys in declaration order, each once, exactly the sixteen codes. */
  function GetAllMbtiCodes(): (codes: seq<string>)
    ensures |codes| == 16
    ensures forall i, j :: 0 <= i < j < |codes| ==> codes[i] != codes[j]
    ensures forall c :: c in codes <==> IsMbtiCode(c)
    ensures forall i :: 0 <= i < |codes| ==> GetMbtiType(codes[i]).Some?
    ensures codes == ["ENTJ", "ENTP", "INTJ", "INTP", "ENFJ", "ENFP", "INFJ", "INFP",
                      "ESTJ", "ESFJ", "ISTJ", "ISFJ", "ESTP", "ESFP", "ISTP", "ISFP"]
  {
    MbtiTypes.KeyOrderIs();
    MbtiTypes.KeysAreTheSixteenCodes();
    forall c ensures c in MbtiTypes.KeyOrder() <==> IsMbtiCode(c) {
      MbtiTypes.InTableIffListed(c);
    }
    MbtiTypes.KeyOrder()
  }

  /** `getQuestionsByDimension`: the catalog questions tagged `d`, in catalog order. */
  function GetQuestionsByDimension(d: Dimension): (qs: seq<Questions.Question>)
    ensures forall q :: q in qs <==> q in Questions.Questions && q.dimension == d
    ensures |qs| == Questions.RunEnd(d) - Questions.RunStart(d)
    ensures qs == Questions.Questions[Questions.RunStart(d)..Questions.RunEnd(d)]
  {
    Questions.GroupMembers(d);
    Questions.QuestionsByDimensionRuns(d);
    Questions.RunBounds(0, d);
    Questions.QuestionsByDimension(d)
  }

  /** `getQuestionCount`. */
  function GetQuestionCount(): (n: nat)
    ensures n == 18
  {
    Questions.CatalogDimensions();
    Questions.TotalQuestions()
  }
}
