/**
 * The shared declarations of the quiz: dimension pairs, the answers a user
 * gives, the personality-type record and the share record.
 */
module Types {

  /** A dimension pair (an axis) of the questionnaire. */
  datatype Dimension = EI | SN | TF | JP

  /** The axes in the order the result lists them. */
  const Dimensions: seq<Dimension> := [EI, SN, TF, JP]

  /** The first letter of a pair: the one a negative score resolves to. */
  function FirstPole(d: Dimension): string
  {
    match d
    case EI => "E"
    case SN => "S"
    case TF => "T"
    case JP => "J"
  }

  /** The second letter of a pair. */
  function SecondPole(d: Dimension): string
  {
    match d
    case EI => "I"
    case SN => "N"
    case TF => "F"
    case JP => "P"
  }

  /**
   * One recorded selection. `dimension` is a free string in the source, so a
   * value outside the eight pole letters can be represented.
   */
  datatype UserAnswer = UserAnswer(questionId: string, answerId: string, value: real, dimension: string)

  /** The four qualitative strength labels, weakest first. */
  datatype Strength = Slight | Moderate | Clear | VeryClear

  datatype DimensionScore = DimensionScore(dimension: Dimension, score: real, preference: char, strength: Strength)

  /** The part of a type's travel style that the logic reads. */
  datatype TravelStyle = TravelStyle(preferences: seq<string>, planningStyle: string)

  /** One entry of the personality-type table. */
  datatype MbtiType = MbtiType(
    code: string,
    name: string,
    travelStyle: TravelStyle,
    imageUrl: string)

  /** The sixteen literals of the `MBTICode` union, in their declared order. */
  const MbtiCodes: seq<string> := [
    "INTJ", "INTP", "ENTJ", "ENTP", "INFJ", "INFP", "ENFJ", "ENFP",
    "ISTJ", "ISFJ", "ESTJ", "ESFJ", "ISTP", "ISFP", "ESTP", "ESFP"
  ]

  /** A code: four letters, one from each pair E/I, N/S, F/T, P/J, in that order. */
  predicate IsMbtiCode(s: string)
  {
    && |s| == 4
    && (s[0] == 'E' || s[0] == 'I')
    && (s[1] == 'N' || s[1] == 'S')
    && (s[2] == 'F' || s[2] == 'T')
    && (s[3] == 'P' || s[3] == 'J')
  }

  /** The codes are exactly the sixteen literals of the union. */
  lemma CodesListed(s: string)
    ensures IsMbtiCode(s) <==> s in MbtiCodes
  {
    if s in MbtiCodes {
      var j :| 0 <= j < |MbtiCodes| && MbtiCodes[j] == s;
      if j < 8 {
        assert j == 0 || j == 1 || j == 2 || j == 3 || j == 4 || j == 5 || j == 6 || j == 7;
      } else {
        assert j == 8 || j == 9 || j == 10 || j == 11 || j == 12 || j == 13 || j == 14 || j == 15;
      }
    }
    if IsMbtiCode(s) {
      assert s == [s[0], s[1], s[2], s[3]];
      if s[0] == 'E' {
        if s[1] == 'N' {
          if s[2] == 'F' {
            if s[3] == 'P' { assert s == MbtiCodes[7]; } else { assert s == MbtiCodes[6]; }
          } else {
            if s[3] == 'P' { assert s == MbtiCodes[3]; } else { assert s == MbtiCodes[2]; }
          }
        } else {
          if s[2] == 'F' {
            if s[3] == 'P' { assert s == MbtiCodes[15]; } else { assert s == MbtiCodes[11]; }
          } else {
            if s[3] == 'P' { assert s == MbtiCodes[14]; } else { assert s == MbtiCodes[10]; }
          }
        }
      } else {
        if s[1] == 'N' {
          if s[2] == 'F' {
            if s[3] == 'P' { assert s == MbtiCodes[5]; } else { assert s == MbtiCodes[4]; }
          } else {
            if s[3] == 'P' { assert s == MbtiCodes[1]; } else { assert s == MbtiCodes[0]; }
          }
        } else {
          if s[2] == 'F' {
            if s[3] == 'P' { assert s == MbtiCodes[13]; } else { assert s == MbtiCodes[9]; }
          } else {
            if s[3] == 'P' { assert s == MbtiCodes[12]; } else { assert s == MbtiCodes[8]; }
          }
        }
      }
    }
  }

  /** What the share collaborators receive. */
  datatype ShareData = ShareData(title: string, text: string, url: string, personalityType: string, travelStyle: string)
}
