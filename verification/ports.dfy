/**
 The lexical token record shared with analyzer implementations, and the
 signatures of the three outbound ports. The ports have no implementation in
 the domain layer; a port is a function value, so every property stated over
 one holds for any implementation.
 */
module Ports {
  import opened Results
  import opened Validation
  import opened Models

  /** A token emitted by an analyzer: surface form, part-of-speech tag and
      offsets. Immutable and equal exactly when all four fields are. */
  datatype Token = Token(surface: string, pos: string, startPosition: int, endPosition: int) {
    /** The bounds the constructor enforces; no ordering between them. */
    predicate Valid() {
      startPosition >= 0 && endPosition > 0
    }
  }

  /** Builds a token, checking only the two offset bounds. */
  function MakeToken(surface: string, pos: string, start: int, end: int): (r: Result<Token, seq<Violation>>)
    ensures r.Ok? <==> start >= 0 && end > 0
    ensures r.Ok? ==> r.value.Valid() && r.value == Token(surface, pos, start, end)
    ensures r.Err? ==> (NotGreaterEqual(StartPositionField) in r.error <==> start < 0)
    ensures r.Err? ==> (NotGreaterThan(EndPositionField) in r.error <==> end <= 0)
    ensures r.Err? ==> EndNotAfterStart !in r.error
    ensures r.Err? ==> forall v :: v in r.error ==>
                         v in {NotGreaterEqual(StartPositionField), NotGreaterThan(EndPositionField)}
  {
    Validated(
      AtLeastZero(StartPositionField, start) + AboveZero(EndPositionField, end),
      Token(surface, pos, start, end))
  }

  /** A token whose end lies before its start is accepted. */
  lemma TokenOrderingNotEnforced()
    ensures var r := MakeToken("重要", "名詞", 5, 3);
            r.Ok? && r.value.endPosition < r.value.startPosition
  {
  }

  /** Tokens are values: two tokens are the same exactly when their fields agree. */
  lemma TokenEqualByValue(a: Token, b: Token)
    ensures a == b <==>
      && a.surface == b.surface && a.pos == b.pos
      && a.startPosition == b.startPosition && a.endPosition == b.endPosition
  {
  }

  /** Tokenization of a text (consumed by detector and normalizer implementations only). */
  type TextAnalyzer = string -> seq<Token>

  /** Detection: a function of the text alone, returning a result or raising `E`. */
  type Detector<E> = string -> Result<DetectionResult, E>

  /** Correction: a function of the text and a detection result, returning a
      result or raising `E`. */
  type Normalizer<E> = (string, DetectionResult) -> Result<CorrectionResult, E>
}
