/** `redact_text`: one string through the detector and, when it finds
    something, the anonymizer. Both engines are injected functions. */
module TextRedaction {

  /** A span reported by the analyzer. */
  datatype RecognizerResult =
    RecognizerResult(entityType: string, start: int, end: int, score: real)

  /** The anonymizer's own span type, which the analyzer's spans are copied into. */
  datatype AnonymizerRecognizerResult =
    AnonymizerRecognizerResult(entityType: string, start: int, end: int, score: real)

  /** `analyzer.analyze(text, entities, language)`. */
  type Analyzer = (string, seq<string>, string) -> seq<RecognizerResult>

  /** `anonymizer.anonymize(text, analyzer_results).text`. */
  type Anonymizer = (string, seq<AnonymizerRecognizerResult>) -> string

  /** The language every analysis is run in. */
  const Language: string := "en"

  /** The entity types asked for when the caller names none. */
  const DefaultEntities: seq<string> := [
    "EMAIL_ADDRESS",
    "CREDIT_CARD",
    "US_SOCIAL_SECURITY_NUMBER",
    "PHONE_NUMBER",
    "IP_ADDRESS",
    "US_BANK_NUMBER",
    "US_DRIVER_LICENSE",
    "US_PASSPORT",
    "DATE_TIME",
    "LOCATION",
    "MEDICAL_LICENSE",
    "CRYPTO"
  ]

  lemma DefaultEntitiesAreTwelveDistinct()
    ensures |DefaultEntities| == 12
    ensures forall i, j :: 0 <= i < j < |DefaultEntities| ==> DefaultEntities[i] != DefaultEntities[j]
    ensures DefaultEntities[0] == "EMAIL_ADDRESS" && DefaultEntities[11] == "CRYPTO"
  {
  }

  /** `a` carries the same four fields as `r`. */
  predicate SameFields(r: RecognizerResult, a: AnonymizerRecognizerResult)
  {
    a.entityType == r.entityType && a.start == r.start && a.end == r.end && a.score == r.score
  }

  /** The list comprehension that turns analyzer spans into anonymizer spans. */
  function ToAnonymizerResults(results: seq<RecognizerResult>): (converted: seq<AnonymizerRecognizerResult>)
    ensures |converted| == |results|
    ensures forall i :: 0 <= i < |results| ==> SameFields(results[i], converted[i])
  {
    seq(|results|, i requires 0 <= i < |results| =>
      AnonymizerRecognizerResult(results[i].entityType, results[i].start, results[i].end, results[i].score))
  }

  /** `redact_text(text, analyzer, anonymizer, entities=DEFAULT_ENTITIES)`. */
  function RedactText(text: string, analyzer: Analyzer, anonymizer: Anonymizer, entities: seq<string> := DefaultEntities): (r: string)
    ensures analyzer(text, entities, Language) == [] ==> r == text
    ensures analyzer(text, entities, Language) != [] ==>
      r == anonymizer(text, ToAnonymizerResults(analyzer(text, entities, Language)))
  {
    var results := analyzer(text, entities, Language);
    if results != [] then
      anonymizer(text, ToAnonymizerResults(results))
    else
      text
  }

  /** With nothing detected the anonymizer is never consulted: any two
      anonymizers give the same answer, the input text. */
  lemma AnonymizerNotConsulted(text: string, analyzer: Analyzer, a1: Anonymizer, a2: Anonymizer, entities: seq<string>)
    requires analyzer(text, entities, Language) == []
    ensures RedactText(text, analyzer, a1, entities) == RedactText(text, analyzer, a2, entities) == text
  {
  }

  /** Only the analyzer's answer for this text, these entities and "en"
      matters, never its answer for anything else. */
  lemma OnlyThisQueryMatters(text: string, an1: Analyzer, an2: Analyzer, anonymizer: Anonymizer, entities: seq<string>)
    requires an1(text, entities, Language) == an2(text, entities, Language)
    ensures RedactText(text, an1, anonymizer, entities) == RedactText(text, an2, anonymizer, entities)
  {
  }
}
