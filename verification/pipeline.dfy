/**
 The orchestration of one normalization: detect, then correct, then
 optionally render. The detector and normalizer are parameters, so each
 property below holds for every implementation of the two ports.

 The service also rejects, with a type error, a request that is not a
 request record; here the parameter's type already rules that out.
 */
module Pipeline {
  import opened Results
  import opened JsonValues
  import opened Models
  import opened Ports

  /** What a run returns: the correction itself, or one of its renderings. */
  datatype Output = Raw(correction: CorrectionResult) | PlainText(text: string) | Structured(json: Json)

  /** One invocation of a port, with the arguments it was given. */
  datatype PortCall = DetectCall(text: string) | NormalizeCall(text: string, detection: DetectionResult)

  /** A run of the pipeline: the port calls in the order made, and the outcome. */
  datatype Run<E> = Run(calls: seq<PortCall>, outcome: Result<Output, E>)

  /** Renders a correction in the requested format. The service's fallback for
      a format with no rendering rule (warn, then return the raw result) is
      reached only by a request whose format was set without validation; here
      a format is always one of the two members, which the match covers. */
  function Render(correction: CorrectionResult, format: OutputFormat): (out: Output)
    ensures format == TEXT ==> out == PlainText(correction.correctedText)
    ensures format == JSON ==> out.Structured? && DecodeCorrectionResult(out.json) == Some(correction)
  {
    match format
    case TEXT => PlainText(ToText(correction))
    case JSON => Structured(ToJson(correction))
  }

  /** Runs one request through the two ports. Errors from either port are
      returned as raised, with no retry and no partial result. */
  function NormalizeRequest<E>(detector: Detector<E>, normalizer: Normalizer<E>,
                               request: NormalizationRequest, render: bool := false): (run: Run<E>)
    // The detector is always called first, with the request's text.
    ensures |run.calls| >= 1 && run.calls[0] == DetectCall(request.text)
    // A detector failure is the outcome, and the normalizer is never called.
    ensures detector(request.text).Err? ==>
      run.calls == [DetectCall(request.text)] && run.outcome == Err(detector(request.text).error)
    // Otherwise the normalizer is called once, with the text and the detection unchanged.
    ensures detector(request.text).Ok? ==>
      run.calls == [DetectCall(request.text), NormalizeCall(request.text, detector(request.text).value)]
    // A normalizer failure is the outcome.
    ensures detector(request.text).Ok? && normalizer(request.text, detector(request.text).value).Err? ==>
      run.outcome == Err(normalizer(request.text, detector(request.text).value).error)
    // A result exists exactly when both ports succeed.
    ensures run.outcome.Ok? <==>
      detector(request.text).Ok? && normalizer(request.text, detector(request.text).value).Ok?
    // Unrendered, the result is the normalizer's correction itself.
    ensures run.outcome.Ok? && !render ==>
      run.outcome.value == Raw(normalizer(request.text, detector(request.text).value).value)
    // Rendered as text, it is the corrected text alone.
    ensures run.outcome.Ok? && render && request.outputFormat == TEXT ==>
      run.outcome.value == PlainText(normalizer(request.text, detector(request.text).value).value.correctedText)
    // Rendered as JSON, it is a dump that reads back as the normalizer's correction.
    ensures run.outcome.Ok? && render && request.outputFormat == JSON ==>
      run.outcome.value.Structured? &&
      DecodeCorrectionResult(run.outcome.value.json) == Some(normalizer(request.text, detector(request.text).value).value)
  {
    var detectCall := DetectCall(request.text);
    match detector(request.text)
    case Err(e) => Run([detectCall], Err(e))
    case Ok(detection) =>
      var calls := [detectCall, NormalizeCall(request.text, detection)];
      match normalizer(request.text, detection)
      case Err(e) => Run(calls, Err(e))
      case Ok(correction) =>
        if !render then Run(calls, Ok(Raw(correction)))
        else Run(calls, Ok(Render(correction, request.outputFormat)))
  }

  /** Rendering is a pure afterthought: a rendered run makes the same calls as
      an unrendered one and returns its result rendered. */
  lemma RenderedRunRendersRawRun<E>(detector: Detector<E>, normalizer: Normalizer<E>, request: NormalizationRequest)
    ensures var raw := NormalizeRequest(detector, normalizer, request, false);
            var rendered := NormalizeRequest(detector, normalizer, request, true);
            && rendered.calls == raw.calls
            && (raw.outcome.Err? ==> rendered.outcome == raw.outcome)
            && (raw.outcome.Ok? ==>
                  && raw.outcome.value.Raw?
                  && rendered.outcome == Ok(Render(raw.outcome.value.correction, request.outputFormat)))
  {
  }

  /** A run without an explicit rendering flag is an unrendered run. */
  lemma RenderDefaultsToFalse<E>(detector: Detector<E>, normalizer: Normalizer<E>, request: NormalizationRequest)
    ensures NormalizeRequest(detector, normalizer, request) == NormalizeRequest(detector, normalizer, request, false)
    ensures NormalizeRequest(detector, normalizer, request).outcome.Ok? ==>
              NormalizeRequest(detector, normalizer, request).outcome.value.Raw?
  {
  }

  /** Without rendering, the requested format plays no part in the run. */
  lemma FormatIgnoredWithoutRender<E>(detector: Detector<E>, normalizer: Normalizer<E>,
                                      a: NormalizationRequest, b: NormalizationRequest)
    requires a.text == b.text
    ensures NormalizeRequest(detector, normalizer, a, false) == NormalizeRequest(detector, normalizer, b, false)
  {
  }

  /** The detector is called exactly once and strictly before the normalizer,
      which is called at most once. */
  lemma DetectOnceBeforeNormalize<E>(detector: Detector<E>, normalizer: Normalizer<E>,
                                     request: NormalizationRequest, render: bool)
    ensures var calls := NormalizeRequest(detector, normalizer, request, render).calls;
            && (forall i :: 0 <= i < |calls| && calls[i].DetectCall? ==> i == 0)
            && (forall i :: 0 <= i < |calls| && calls[i].NormalizeCall? ==> i == 1)
            && calls[0].DetectCall?
  {
  }

  /** A normalizer that returns the text unchanged, with no replacements, when
      given a detection without spans. Nothing in the pipeline enforces this;
      it is an assumption an implementation may satisfy. */
  ghost predicate IdentityOnNoSpans<E>(normalizer: Normalizer<E>) {
    forall text, score :: normalizer(text, DetectionResult([], score)) == Ok(CorrectionResult(text, []))
  }

  /** Under that assumption, a request in which nothing is detected comes back
      unchanged, whatever the detector's score. */
  lemma NoSpansGiveIdentity<E>(detector: Detector<E>, normalizer: Normalizer<E>, request: NormalizationRequest)
    requires IdentityOnNoSpans(normalizer)
    requires detector(request.text).Ok? && detector(request.text).value.detectionSpans == []
    ensures NormalizeRequest(detector, normalizer, request, false).outcome
              == Ok(Raw(CorrectionResult(request.text, [])))
    ensures request.outputFormat == TEXT ==>
              NormalizeRequest(detector, normalizer, request, true).outcome == Ok(PlainText(request.text))
  {
  }

  /** The worked example: one flagged span over "非常に重要" and one replacement. */
  lemma ExampleRun()
    ensures
      var request := NormalizationRequest("非常に重要", JSON);
      var detection := DetectionResult([DetectionSpan(0, 5, "非常に重要", 0.9)], 0.8);
      var correction := CorrectionResult("とても重要", [CorrectionSpan("非常に", "とても", 0, 3)]);
      var detector: Detector<string> := t => Ok(detection);
      var normalizer: Normalizer<string> := (t, d) => if d == detection then Ok(correction) else Err("unexpected");
      && NormalizeRequest(detector, normalizer, request, false).outcome == Ok(Raw(correction))
      && NormalizeRequest(detector, normalizer, request.(outputFormat := TEXT), true).outcome
           == Ok(PlainText("とても重要"))
  {
  }
}
