/**
 * The static personality-type table: sixteen entries keyed by type code.
 * A JavaScript object literal is an ordered list of key/value pairs that is
 * read as a dictionary; the model keeps the pairs in declaration order as
 * `Entries` (each key is its entry's `code`) and reads them through
 * `MbtiTypes`.
 */
module MbtiTypes {
  import opened Types
  import opened Builtins

  /** The key/value pairs in declaration order. */
  const Entries: seq<(string, MbtiType)> := [("ENTJ", Entj), ("ENTP", Entp), ("INTJ", Intj), ("INTP", Intp), ("ENFJ", Enfj), ("ENFP", Enfp), ("INFJ", Infj), ("INFP", Infp), ("ESTJ", Estj), ("ESFJ", Esfj), ("ISTJ", Istj), ("ISFJ", Isfj), ("ESTP", Estp), ("ESFP", Esfp), ("ISTP", Istp), ("ISFP", Isfp)]

  // The sixteen entries. Descriptions, characteristics and the other free-text travel fields are not modelled.

  const Entj: MbtiType := MbtiType(
    "ENTJ", "The Commander",
    TravelStyle(["Luxury", "Business travel", "Achievement-oriented"],
      "Highly structured with detailed itineraries"),
    "/images/entj-character.svg")

  const Entp: MbtiType := MbtiType(
    "ENTP", "The Debater",
    TravelStyle(["Innovation", "Spontaneity", "Intellectual stimulation"],
      "Flexible framework with room for spontaneity"),
    "/images/entp-character.svg")

  const Intj: MbtiType := MbtiType(
    "INTJ", "The Architect",
    TravelStyle(["Independence", "Deep exploration", "Knowledge acquisition"],
      "Meticulously researched and well-structured"),
    "/images/intj-character.svg")

  const Intp: MbtiType := MbtiType(
    "INTP", "The Thinker",
    TravelStyle(["Curiosity", "Analysis", "Unconventional experiences"],
      "Loose structure with flexibility for discoveries"),
    "/images/intp-character.svg")

  const Enfj: MbtiType := MbtiType(
    "ENFJ", "The Protagonist",
    TravelStyle(["Cultural immersion", "People connection", "Meaningful impact"],
      "Collaborative planning with group input"),
    "/images/enfj-character.svg")

  const Enfp: MbtiType := MbtiType(
    "ENFP", "The Campaigner",
    TravelStyle(["Authenticity", "Creativity", "Human connection"],
      "Spontaneous with some loose planning"),
    "/images/enfp-character.svg")

  const Infj: MbtiType := MbtiType(
    "INFJ", "The Advocate",
    TravelStyle(["Purpose", "Transformation", "Deep meaning"],
      "Thoughtful and purposeful planning"),
    "/images/infj-character.svg")

  const Infp: MbtiType := MbtiType(
    "INFP", "The Mediator",
    TravelStyle(["Authenticity", "Values alignment", "Creative inspiration"],
      "Flexible with personal meaning focus"),
    "/images/infp-character.svg")

  const Estj: MbtiType := MbtiType(
    "ESTJ", "The Executive",
    TravelStyle(["Organization", "Efficiency", "Clear planning"],
      "Highly organized with detailed schedules"),
    "/images/estj-character.svg")

  const Esfj: MbtiType := MbtiType(
    "ESFJ", "The Consul",
    TravelStyle(["Group harmony", "Social experiences", "Cultural appreciation"],
      "Considerate planning for group needs"),
    "/images/esfj-character.svg")

  const Istj: MbtiType := MbtiType(
    "ISTJ", "The Logistician",
    TravelStyle(["Reliability", "Tradition", "Historical significance"],
      "Detailed and traditional planning approach"),
    "/images/istj-character.svg")

  const Isfj: MbtiType := MbtiType(
    "ISFJ", "The Protector",
    TravelStyle(["Comfort", "Safety", "Meaningful connections"],
      "Careful planning with safety and comfort focus"),
    "/images/isfj-character.svg")

  const Estp: MbtiType := MbtiType(
    "ESTP", "The Entrepreneur",
    TravelStyle(["Adventure", "Excitement", "Hands-on experiences"],
      "Minimal planning with maximum flexibility"),
    "/images/estp-character.svg")

  const Esfp: MbtiType := MbtiType(
    "ESFP", "The Entertainer",
    TravelStyle(["Fun", "Spontaneity", "Social experiences"],
      "Spontaneous with focus on fun"),
    "/images/esfp-character.svg")

  const Istp: MbtiType := MbtiType(
    "ISTP", "The Virtuoso",
    TravelStyle(["Independence", "Hands-on experiences", "Practical exploration"],
      "Minimal structure with practical focus"),
    "/images/istp-character.svg")

  const Isfp: MbtiType := MbtiType(
    "ISFP", "The Adventurer",
    TravelStyle(["Beauty", "Harmony", "Artistic expression"],
      "Gentle planning with aesthetic focus"),
    "/images/isfp-character.svg")

  /** The keys in declaration order: what `Object.keys` yields. */
  function KeyOrder(): (keys: seq<string>)
    ensures |keys| == |Entries|
    ensures forall i :: 0 <= i < |Entries| ==> keys[i] == Entries[i].0
  {
    seq(|Entries|, i requires 0 <= i < |Entries| => Entries[i].0)
  }

  /** The table read as a dictionary. */
  function MbtiTypes(): map<string, MbtiType>
  {
    KeysDistinct();
    map i | 0 <= i < |Entries| :: Entries[i].0 := Entries[i].1
  }

  /** The declared keys, in order. */
  lemma KeyOrderIs()
    ensures KeyOrder() == [
      "ENTJ", "ENTP", "INTJ", "INTP", "ENFJ", "ENFP", "INFJ", "INFP",
      "ESTJ", "ESFJ", "ISTJ", "ISFJ", "ESTP", "ESFP", "ISTP", "ISFP"]
  {
  }

  lemma KeysDistinct()
    ensures forall i, j :: 0 <= i < j < |Entries| ==> Entries[i].0 != Entries[j].0
  {
    KeyOrderIs();
  }

  /** A key is in the table exactly when it is one of the declared keys. */
  lemma InTableIffListed(k: string)
    ensures k in MbtiTypes() <==> k in KeyOrder()
  {
    if k in KeyOrder() {
      var i :| 0 <= i < |Entries| && KeyOrder()[i] == k;
      assert Entries[i].0 == k;
    }
  }

  /** The image path every entry follows. */
  function CharacterImage(code: string): string
  {
    "/images/" + AsciiLower(code) + "-character.svg"
  }

  predicate WellFormedEntry(t: MbtiType)
  {
    && t.imageUrl == CharacterImage(t.code)
    && |t.travelStyle.preferences| == 3
  }

  /** The table holds sixteen distinct keys, and they are exactly the sixteen codes of the `MBTICode` union. */
  lemma KeysAreTheSixteenCodes()
    ensures |Entries| == 16
    ensures forall i, j :: 0 <= i < j < |Entries| ==> Entries[i].0 != Entries[j].0
    ensures forall k :: k in MbtiTypes() <==> IsMbtiCode(k)
  {
    KeysDistinct();
    KeyOrderIs();
    forall k ensures k in MbtiTypes() <==> IsMbtiCode(k) {
      InTableIffListed(k);
      CodesListed(k);
    }
  }

  lemma EntryWellFormed(i: nat)
    requires i < |Entries|
    ensures Entries[i].1.code == Entries[i].0 && WellFormedEntry(Entries[i].1)
  {
    EntjWellFormed();
    EntpWellFormed();
    IntjWellFormed();
    IntpWellFormed();
    EnfjWellFormed();
    EnfpWellFormed();
    InfjWellFormed();
    InfpWellFormed();
    EstjWellFormed();
    EsfjWellFormed();
    IstjWellFormed();
    IsfjWellFormed();
    EstpWellFormed();
    EsfpWellFormed();
    IstpWellFormed();
    IsfpWellFormed();
    assert i == 0 || i == 1 || i == 2 || i == 3 || i == 4 || i == 5 || i == 6 || i == 7 || i == 8 || i == 9 || i == 10 || i == 11 || i == 12 || i == 13 || i == 14 || i == 15;
  }

  lemma EntjWellFormed() ensures WellFormedEntry(Entj) { }
  lemma EntpWellFormed() ensures WellFormedEntry(Entp) { }
  lemma IntjWellFormed() ensures WellFormedEntry(Intj) { }
  lemma IntpWellFormed() ensures WellFormedEntry(Intp) { }
  lemma EnfjWellFormed() ensures WellFormedEntry(Enfj) { }
  lemma EnfpWellFormed() ensures WellFormedEntry(Enfp) { }
  lemma InfjWellFormed() ensures WellFormedEntry(Infj) { }
  lemma InfpWellFormed() ensures WellFormedEntry(Infp) { }
  lemma EstjWellFormed() ensures WellFormedEntry(Estj) { }
  lemma EsfjWellFormed() ensures WellFormedEntry(Esfj) { }
  lemma IstjWellFormed() ensures WellFormedEntry(Istj) { }
  lemma IsfjWellFormed() ensures WellFormedEntry(Isfj) { }
  lemma EstpWellFormed() ensures WellFormedEntry(Estp) { }
  lemma EsfpWellFormed() ensures WellFormedEntry(Esfp) { }
  lemma IstpWellFormed() ensures WellFormedEntry(Istp) { }
  lemma IsfpWellFormed() ensures WellFormedEntry(Isfp) { }

  /** Every entry is stored under its own code and follows the image and list-size conventions. */
  lemma EntriesWellFormed()
    ensures forall k :: k in MbtiTypes() ==> MbtiTypes()[k].code == k && WellFormedEntry(MbtiTypes()[k])
  {
    KeysDistinct();
    forall k | k in MbtiTypes() ensures MbtiTypes()[k].code == k && WellFormedEntry(MbtiTypes()[k]) {
      var i :| 0 <= i < |Entries| && Entries[i].0 == k;
      EntryWellFormed(i);
    }
  }
}
