/**
 The entity records of the normalizer's domain layer and their construction
 rules. Each record is an immutable datatype with a `Valid` predicate; each
 constructor that Pydantic validates becomes a `Make…` function that returns
 either the record or every violation found, in field order.
 */
module Models {
  import opened Results
  import opened Validation
  import opened JsonValues
  import PyStr

  /** Allowed output rendering formats; exactly two. */
  datatype OutputFormat = JSON | TEXT

  /** The format of a request built without an explicit one. */
  const DefaultOutputFormat: OutputFormat := JSON

  /** The longest request text accepted, in code points. */
  const MaxTextLength: nat := 4000

  /** The string value of each format member. */
  function FormatValue(f: OutputFormat): string {
    match f
    case JSON => "json"
    case TEXT => "text"
  }

  /** Lookup of a format member by its value, as done when a raw value is validated. */
  function ParseOutputFormat(s: string): (r: Option<OutputFormat>)
    ensures r.Some? <==> s == "json" || s == "text"
    ensures r.Some? ==> FormatValue(r.value) == s
  {
    if s == "json" then Some(JSON)
    else if s == "text" then Some(TEXT)
    else None
  }

  /** Every format member is found again from its value. */
  lemma ParseFormatValue(f: OutputFormat)
    ensures ParseOutputFormat(FormatValue(f)) == Some(f)
  {
  }

  // ---------------------------------------------------------------------
  // NormalizationRequest
  // ---------------------------------------------------------------------

  datatype NormalizationRequest = NormalizationRequest(text: string, outputFormat: OutputFormat) {
    /** A request the constructor accepts: short enough and not blank. */
    predicate Valid() {
      |text| <= MaxTextLength && !PyStr.AllWhitespace(text)
    }
  }

  /** The violations of the `text` field: the length limit is checked first,
      and the blank-text validator runs only on a text within that limit. */
  function TextViolations(text: string): seq<Violation> {
    if |text| > MaxTextLength then [StringTooLong(TextField)]
    else if PyStr.Strip(text) == [] then [BlankText]
    else []
  }

  /** Builds a request from its raw fields; `None` for the format means the
      field was not given. The text is kept as given, never stripped. */
  function MakeRequest(text: string, outputFormat: Option<string>): (r: Result<NormalizationRequest, seq<Violation>>)
    ensures r.Ok? <==>
      && |text| <= MaxTextLength
      && !PyStr.AllWhitespace(text)
      && (outputFormat.None? || outputFormat.value in {"json", "text"})
    ensures r.Ok? ==> r.value.Valid() && r.value.text == text
    ensures r.Ok? && outputFormat.None? ==> r.value.outputFormat == JSON
    ensures r.Ok? && outputFormat.Some? ==> FormatValue(r.value.outputFormat) == outputFormat.value
    ensures r.Err? ==> (StringTooLong(TextField) in r.error <==> |text| > MaxTextLength)
    ensures r.Err? ==> (BlankText in r.error <==> |text| <= MaxTextLength && PyStr.AllWhitespace(text))
    ensures r.Err? ==> (NotEnumMember(OutputFormatField) in r.error <==>
                          outputFormat.Some? && outputFormat.value !in {"json", "text"})
    ensures r.Err? ==> forall v :: v in r.error ==>
                         v in {StringTooLong(TextField), BlankText, NotEnumMember(OutputFormatField)}
  {
    var textViolations := TextViolations(text);
    match outputFormat
    case None => Validated(textViolations, NormalizationRequest(text, DefaultOutputFormat))
    case Some(value) =>
      match ParseOutputFormat(value)
      case None => Err(textViolations + [NotEnumMember(OutputFormatField)])
      case Some(format) => Validated(textViolations, NormalizationRequest(text, format))
  }

  /** Every valid request is what the constructor builds from its own fields. */
  lemma ValidRequestIsConstructible(q: NormalizationRequest)
    requires q.Valid()
    ensures MakeRequest(q.text, Some(FormatValue(q.outputFormat))) == Ok(q)
  {
    ParseFormatValue(q.outputFormat);
  }

  // ---------------------------------------------------------------------
  // Span offsets
  // ---------------------------------------------------------------------

  /** The violations of an end offset, for a record whose end must lie after
      its start. The ordering check runs only once `gt=0` has passed, and it
      compares with the start recorded so far: a start that failed its own
      check was not recorded, and 0 stands in for it. */
  function EndPositionViolations(start: int, end: int): seq<Violation> {
    if end <= 0 then [NotGreaterThan(EndPositionField)]
    else
      var recordedStart := if start >= 0 then start else 0;
      if end <= recordedStart then [EndNotAfterStart] else []
  }

  // ---------------------------------------------------------------------
  // DetectionSpan
  // ---------------------------------------------------------------------

  /** A region flagged as a direct-translation candidate. */
  datatype DetectionSpan = DetectionSpan(
    startPosition: int,
    endPosition: int,
    detectedText: string,
    confidenceScore: real)
  {
    predicate Valid() {
      && startPosition >= 0
      && endPosition > 0
      && endPosition > startPosition
      && 0.0 <= confidenceScore <= 1.0
    }
  }

  /** Builds a detection span. Only the offsets' bounds, their order and the
      score's range are checked: the detected text is compared with nothing. */
  function MakeDetectionSpan(start: int, end: int, detectedText: string, confidence: real)
    : (r: Result<DetectionSpan, seq<Violation>>)
    ensures r.Ok? <==> start >= 0 && end > 0 && end > start && 0.0 <= confidence <= 1.0
    ensures r.Ok? ==> r.value.Valid() && r.value == DetectionSpan(start, end, detectedText, confidence)
    ensures r.Err? ==> (NotGreaterEqual(StartPositionField) in r.error <==> start < 0)
    ensures r.Err? ==> (NotGreaterThan(EndPositionField) in r.error <==> end <= 0)
    ensures r.Err? ==> (EndNotAfterStart in r.error <==> 0 < end <= start)
    ensures r.Err? ==> (NotGreaterEqual(ConfidenceScoreField) in r.error <==> confidence < 0.0)
    ensures r.Err? ==> (NotLessEqual(ConfidenceScoreField) in r.error <==> confidence > 1.0)
    ensures r.Err? ==> forall v :: v in r.error ==>
                         v in {NotGreaterEqual(StartPositionField), NotGreaterThan(EndPositionField), EndNotAfterStart,
                               NotGreaterEqual(ConfidenceScoreField), NotLessEqual(ConfidenceScoreField)}
  {
    Validated(
      AtLeastZero(StartPositionField, start)
        + EndPositionViolations(start, end)
        + InUnitInterval(ConfidenceScoreField, confidence),
      DetectionSpan(start, end, detectedText, confidence))
  }

  /** Every valid detection span is what the constructor builds from its fields. */
  lemma ValidDetectionSpanIsConstructible(s: DetectionSpan)
    requires s.Valid()
    ensures MakeDetectionSpan(s.startPosition, s.endPosition, s.detectedText, s.confidenceScore) == Ok(s)
  {
  }

  /** No cross-field check ties a span to a text: a span lying wholly beyond
      the end of `text`, whose detected text is not `text` either, is accepted. */
  lemma DetectionSpanNotCheckedAgainstText(text: string, confidence: real)
    requires 0.0 <= confidence <= 1.0
    ensures var r := MakeDetectionSpan(|text|, |text| + 1, text + "?", confidence);
            r.Ok? && r.value.startPosition >= |text| && r.value.detectedText != text
  {
  }

  // ---------------------------------------------------------------------
  // DetectionResult
  // ---------------------------------------------------------------------

  /** The detector's output: spans in detection order and an overall score. */
  datatype DetectionResult = DetectionResult(detectionSpans: seq<DetectionSpan>, signatureScore: real) {
    predicate Valid() {
      && 0.0 <= signatureScore <= 1.0
      && forall i :: 0 <= i < |detectionSpans| ==> detectionSpans[i].Valid()
    }
  }

  /** Builds a detection result; `None` for the spans means the field was not
      given and defaults to no spans. The spans are records already validated
      when they were built, and are kept as given, in order; only the score
      is checked. */
  function MakeDetectionResult(spans: Option<seq<DetectionSpan>>, score: real)
    : (r: Result<DetectionResult, seq<Violation>>)
    ensures r.Ok? <==> 0.0 <= score <= 1.0
    ensures r.Ok? ==> r.value.signatureScore == score
    ensures r.Ok? && spans.None? ==> r.value.detectionSpans == []
    ensures r.Ok? && spans.Some? ==> r.value.detectionSpans == spans.value
    ensures r.Ok? ==>
      ((spans.Some? ==> forall i :: 0 <= i < |spans.value| ==> spans.value[i].Valid()) ==> r.value.Valid())
    ensures r.Err? ==> (NotGreaterEqual(SignatureScoreField) in r.error <==> score < 0.0)
    ensures r.Err? ==> (NotLessEqual(SignatureScoreField) in r.error <==> score > 1.0)
    ensures r.Err? ==> forall v :: v in r.error ==>
                         v in {NotGreaterEqual(SignatureScoreField), NotLessEqual(SignatureScoreField)}
  {
    var given := match spans case None => [] case Some(s) => s;
    Validated(InUnitInterval(SignatureScoreField, score), DetectionResult(given, score))
  }

  // ---------------------------------------------------------------------
  // CorrectionSpan
  // ---------------------------------------------------------------------

  /** One replacement, with offsets into the original text. */
  datatype CorrectionSpan = CorrectionSpan(
    originalText: string,
    suggestion: string,
    startPosition: int,
    endPosition: int)
  {
    /** The bounds the constructor enforces. */
    predicate Valid() {
      startPosition >= 0 && endPosition > 0
    }

    /** The ordering the field description and the validator's message promise. */
    predicate Ordered() {
      endPosition > startPosition
    }
  }

  /** Builds a correction span as the class is written: its ordering validator
      is attached to a field named `end` and reads one named `start`, and the
      record has neither, so only the two bounds are enforced. */
  function MakeCorrectionSpan(originalText: string, suggestion: string, start: int, end: int)
    : (r: Result<CorrectionSpan, seq<Violation>>)
    ensures r.Ok? <==> start >= 0 && end > 0
    ensures r.Ok? ==> r.value.Valid() && r.value == CorrectionSpan(originalText, suggestion, start, end)
    ensures r.Err? ==> (NotGreaterEqual(StartPositionField) in r.error <==> start < 0)
    ensures r.Err? ==> (NotGreaterThan(EndPositionField) in r.error <==> end <= 0)
    ensures r.Err? ==> EndNotAfterStart !in r.error
    ensures r.Err? ==> forall v :: v in r.error ==>
                         v in {NotGreaterEqual(StartPositionField), NotGreaterThan(EndPositionField)}
  {
    Validated(
      AtLeastZero(StartPositionField, start) + AboveZero(EndPositionField, end),
      CorrectionSpan(originalText, suggestion, start, end))
  }

  /** The promised ordering does not hold of every accepted correction span. */
  lemma CorrectionSpanOrderingNotEnforced()
    ensures var r := MakeCorrectionSpan("非常に", "とても", 3, 1);
            r.Ok? && !r.value.Ordered()
  {
  }

  /** Builds a correction span with the ordering check applied to the real
      offset fields, as for detection spans. */
  function MakeCorrectionSpanChecked(originalText: string, suggestion: string, start: int, end: int)
    : (r: Result<CorrectionSpan, seq<Violation>>)
    ensures r.Ok? <==> start >= 0 && end > 0 && end > start
    ensures r.Ok? ==> r.value.Valid() && r.value.Ordered()
    ensures r.Ok? ==> r.value == CorrectionSpan(originalText, suggestion, start, end)
    ensures r.Err? ==> (NotGreaterEqual(StartPositionField) in r.error <==> start < 0)
    ensures r.Err? ==> (NotGreaterThan(EndPositionField) in r.error <==> end <= 0)
    ensures r.Err? ==> (EndNotAfterStart in r.error <==> 0 < end <= start)
    ensures r.Err? ==> forall v :: v in r.error ==>
                         v in {NotGreaterEqual(StartPositionField), NotGreaterThan(EndPositionField), EndNotAfterStart}
  {
    Validated(
      AtLeastZero(StartPositionField, start) + EndPositionViolations(start, end),
      CorrectionSpan(originalText, suggestion, start, end))
  }

  /** The two constructors disagree on exactly the inverted spans with valid bounds. */
  lemma CheckedDiffersOnlyOnInvertedSpans(originalText: string, suggestion: string, start: int, end: int)
    ensures MakeCorrectionSpan(originalText, suggestion, start, end)
              != MakeCorrectionSpanChecked(originalText, suggestion, start, end)
            <==> 0 <= start && 0 < end <= start
  {
  }

  // ---------------------------------------------------------------------
  // CorrectionResult and its renderings
  // ---------------------------------------------------------------------

  /** The final output: the corrected text and the replacements in the order
      they were applied. It has no constraint of its own; the replacements
      default to none when not given. */
  datatype CorrectionResult = CorrectionResult(correctedText: string, diffs: seq<CorrectionSpan> := []) {
    predicate Valid() {
      forall i :: 0 <= i < |diffs| ==> diffs[i].Valid()
    }
  }

  /** The plain-text rendering of a correction result. */
  function ToText(r: CorrectionResult): string {
    r.correctedText
  }

  /** The structured rendering of a correction result: a dictionary with the
      corrected text and one dictionary per replacement, in order, from which
      the record can be read back unchanged. */
  function ToJson(r: CorrectionResult): (j: Json)
    ensures j.JObject? && |j.members| == 2
    ensures j.members[0] == ("corrected_text", JString(r.correctedText))
    ensures j.members[1].0 == "diffs" && j.members[1].1.JArray?
    ensures |j.members[1].1.items| == |r.diffs|
    ensures forall i :: 0 <= i < |r.diffs| ==> DecodeSpan(j.members[1].1.items[i]) == Some(r.diffs[i])
    ensures DecodeCorrectionResult(j) == Some(r)
  {
    var items := DiffsToJson(r.diffs);
    var decoded := DecodeDiffs(items);
    assert decoded.Some? && decoded.value == r.diffs;
    JObject([("corrected_text", JString(r.correctedText)), ("diffs", JArray(items))])
  }

  /** The dumped form of one correction span. */
  function SpanToJson(d: CorrectionSpan): Json {
    JObject([
      ("original_text", JString(d.originalText)),
      ("suggestion", JString(d.suggestion)),
      ("start_position", JInt(d.startPosition)),
      ("end_position", JInt(d.endPosition))])
  }

  /** Reads a correction span back from its dumped form. */
  function DecodeSpan(j: Json): Option<CorrectionSpan> {
    match j
    case JObject(m) =>
      if && |m| == 4
         && m[0].0 == "original_text" && m[0].1.JString?
         && m[1].0 == "suggestion" && m[1].1.JString?
         && m[2].0 == "start_position" && m[2].1.JInt?
         && m[3].0 == "end_position" && m[3].1.JInt?
      then Some(CorrectionSpan(m[0].1.str, m[1].1.str, m[2].1.num, m[3].1.num))
      else None
    case _ => None
  }

  /** Dumps a list of correction spans, one entry per span, in order. */
  function DiffsToJson(ds: seq<CorrectionSpan>): (js: seq<Json>)
    ensures |js| == |ds|
    ensures forall i :: 0 <= i < |ds| ==> DecodeSpan(js[i]) == Some(ds[i])
  {
    if ds == [] then [] else [SpanToJson(ds[0])] + DiffsToJson(ds[1..])
  }

  /** Reads a list of correction spans back; fails if any entry is not one. */
  function DecodeDiffs(js: seq<Json>): (r: Option<seq<CorrectionSpan>>)
    ensures r.Some? <==> forall i :: 0 <= i < |js| ==> DecodeSpan(js[i]).Some?
    ensures r.Some? ==> |r.value| == |js|
    ensures r.Some? ==> forall i :: 0 <= i < |js| ==> DecodeSpan(js[i]) == Some(r.value[i])
  {
    if js == [] then Some([])
    else
      match (DecodeSpan(js[0]), DecodeDiffs(js[1..]))
      case (Some(d), Some(rest)) => Some([d] + rest)
      case _ => None
  }

  /** Reads a correction result back from its dumped form. */
  function DecodeCorrectionResult(j: Json): Option<CorrectionResult> {
    match j
    case JObject(m) =>
      if && |m| == 2
         && m[0].0 == "corrected_text" && m[0].1.JString?
         && m[1].0 == "diffs" && m[1].1.JArray?
      then
        match DecodeDiffs(m[1].1.items)
        case Some(ds) => Some(CorrectionResult(m[0].1.str, ds))
        case None => None
      else None
    case _ => None
  }

  /** The structured rendering loses nothing: distinct results dump differently. */
  lemma ToJsonInjective(a: CorrectionResult, b: CorrectionResult)
    ensures ToJson(a) == ToJson(b) <==> a == b
  {
  }

  /** The plain-text rendering is the corrected text alone: results that
      differ only in their replacements render to the same string. */
  lemma ToTextForgetsDiffs(r: CorrectionResult, ds: seq<CorrectionSpan>)
    ensures ToText(r) == r.correctedText == ToText(r.(diffs := ds))
  {
  }

  /** A result built without replacements has none. */
  lemma CorrectionResultDiffsDefault(text: string)
    ensures CorrectionResult(text).diffs == []
    ensures ToText(CorrectionResult(text)) == text
  {
  }
}
