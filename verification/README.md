# ja-normalizer domain layer in Dafny

This project models the domain layer of a Japanese "direct-translation" normalizer. It has two parts.

- **Entity records.** These are `NormalizationRequest`, `DetectionSpan`, `DetectionResult`, `CorrectionSpan`, `CorrectionResult` and `Token`. Each one is an immutable datatype with a `Valid` predicate. A record that the code builds through Pydantic validation gets a `Make…` function. It returns either the record or every violation found, listed in field order the way Pydantic collects them.
- **`PipelineService.normalize`.** This is a strict two-stage pipe: detect, then correct, then optionally render.

The `Detector` and `Normalizer` ports are function values that return a `Result`. So every pipeline property is proved for any implementation of them.

Files and modules:

- `results.dfy` (`Results`): `Result` and `Option`.
- `pystr.dfy` (`PyStr`): Python's `str.isspace()` character set and `str.strip()`.
- `validation.dfy` (`Validation`): the violation kinds and the shared bound checks.
- `json.dfy` (`JsonValues`): the JSON-compatible values a dumped record consists of.
- `models.dfy` (`Models`): the records of `models.py`, `to_text` and `to_json`.
- `ports.dfy` (`Ports`): `Token` and the signatures of the three ports.
- `pipeline.dfy` (`Pipeline`): `normalize`, with a trace of the port calls it makes.

Points where the model follows the code closely:

- `to_json` is `model_dump(mode='json')` and no field declares an alias. So its keys are the field names `corrected_text`, `diffs`, `original_text`, `suggestion`, `start_position` and `end_position`.
- The `end_position` descriptions of `DetectionSpan` and `CorrectionSpan` both say "Must be > start" (models.py:42 and models.py:67). Only `DetectionSpan`'s validator enforces it. `CorrectionSpan`'s validator names fields the class does not have, so it would enforce nothing if Pydantic let the class be defined (see Findings). `Token`'s `end_position` (ports.py:29) makes no such promise and has no such check.
- The fallback commented "Future-proof" (pipeline.py:81-83) is taken only by a request whose `output_format` is not one of the two members. Validation never produces such a request; see "## Left out".

## Model

| member | source | states |
|---|---|---|
| PyStr.Strip | src/ja_normalizer/domain/models.py:30-35 | `strip()` gives a slice of the text with only whitespace before and after it, in Python's sense of whitespace. Neither end of a non-empty result is whitespace. The result is empty exactly when the text is empty or all whitespace. |
| PyStr.TrimStart | src/ja_normalizer/domain/models.py:33 | The leading part of `strip()`: the result is a suffix of the text that does not start with whitespace, and everything removed before it is whitespace. |
| PyStr.TrimEnd | src/ja_normalizer/domain/models.py:33 | The trailing part of `strip()`: the result is a prefix of the text that does not end with whitespace, and everything removed after it is whitespace. |
| Models.ParseOutputFormat | src/ja_normalizer/domain/models.py:15-19 | A raw format value names a member exactly when it is `"json"` or `"text"`. The member found has that value. |
| Models.ParseFormatValue | src/ja_normalizer/domain/models.py:15-19 | Each of the two members is found again from its own value. |
| Models.MakeRequest | src/ja_normalizer/domain/models.py:22-35 | A request is accepted exactly when three things hold: the text has at most 4000 code points, the text is not blank, and the format (if given) is a member. The accepted text is the input unchanged, not stripped. The format defaults to JSON. The blank-text error is reported only for a text within the length limit. An unknown format is reported as its own error. No other violation is ever reported. |
| Models.ValidRequestIsConstructible | src/ja_normalizer/domain/models.py:22-35 | Every valid request is exactly what the constructor builds from its own text and format value. |
| Models.MakeDetectionSpan | src/ja_normalizer/domain/models.py:38-51 | A span is accepted exactly when start >= 0, end > 0, end > start and 0 <= confidence <= 1. Each violation is reported exactly when its own condition fails. The ordering error appears only when 0 < end <= start, because the validator compares against 0 when the start was rejected. No other violation is ever reported. |
| Models.ValidDetectionSpanIsConstructible | src/ja_normalizer/domain/models.py:38-51 | Every valid detection span is exactly what the constructor builds from its fields. |
| Models.DetectionSpanNotCheckedAgainstText | src/ja_normalizer/domain/models.py:38-51 | No cross-field check exists. A span lying beyond the end of a text, with detected text that differs from that text, is accepted. |
| Models.MakeDetectionResult | src/ja_normalizer/domain/models.py:54-58 | A detection result is accepted exactly when the signature score is in [0,1]. The spans are kept as given and in order, or default to none. The result is valid whenever its spans are. The only violations reported are the score's two bounds. |
| Models.MakeCorrectionSpan | src/ja_normalizer/domain/models.py:61-74 | As written, a correction span is accepted exactly when start >= 0 and end > 0. Each bound's violation is reported exactly when it fails, and nothing else: no ordering error is ever reported. |
| Models.CorrectionSpanOrderingNotEnforced | src/ja_normalizer/domain/models.py:66-74 | The span with start 3 and end 1 is accepted, although its description promises end > start. |
| Models.MakeCorrectionSpanChecked | src/ja_normalizer/domain/models.py:66-74 | The corrected constructor accepts exactly when start >= 0, end > 0 and end > start. Its results are ordered. Each of the three violations is reported exactly when its condition fails, and no other is. |
| Models.CheckedDiffersOnlyOnInvertedSpans | src/ja_normalizer/domain/models.py:66-74 | The as-written constructor and the corrected one disagree exactly when 0 <= start and 0 < end <= start. |
| Models.ToJson | src/ja_normalizer/domain/models.py:87-89 | The dump is a two-key dictionary. `corrected_text` equals the field. `diffs` has one entry per diff, in the same order, and entry i reads back as diff i. The whole dump reads back as the original record. |
| Models.DiffsToJson | src/ja_normalizer/domain/models.py:81 | The dumped diff list has the same length as the list, and each entry reads back as the diff at the same index. |
| Models.ToJsonInjective | src/ja_normalizer/domain/models.py:87-89 | Two results have the same dump exactly when they are equal, so the structured rendering loses nothing. |
| Models.ToTextForgetsDiffs | src/ja_normalizer/domain/models.py:83-85 | For every result, `to_text` returns exactly `corrected_text`. Replacing the diffs with any others never changes it. |
| Models.CorrectionResultDiffsDefault | src/ja_normalizer/domain/models.py:80-81 | A result built from the corrected text alone has no diffs, and its text rendering is that text. |
| Ports.MakeToken | src/ja_normalizer/domain/ports.py:23-29 | A token is accepted exactly when start >= 0 and end > 0. Each bound's violation is reported exactly when it fails, and nothing else: no ordering error is reported. |
| Ports.TokenOrderingNotEnforced | src/ja_normalizer/domain/ports.py:28-29 | A token whose end lies before its start is accepted. |
| Ports.TokenEqualByValue | src/ja_normalizer/domain/ports.py:31-33 | Two tokens are equal exactly when all four fields agree. |
| Pipeline.Render | src/ja_normalizer/domain/services/pipeline.py:75-83 | Rendering as TEXT gives exactly the corrected text. Rendering as JSON gives a dump that reads back as the correction. |
| Pipeline.NormalizeRequest | src/ja_normalizer/domain/services/pipeline.py:41-83 | The detector is called first, with the request's text. If it fails, that error is the outcome and the normalizer is never called. Otherwise the normalizer is called once, with the text and the unmodified detection. Its error is returned unchanged. A result exists exactly when both ports succeed. That result is the normalizer's correction itself, or it is rendered per the request's format. |
| Pipeline.RenderedRunRendersRawRun | src/ja_normalizer/domain/services/pipeline.py:72-79 | A rendered run makes the same port calls as an unrendered one. Its outcome is the unrendered outcome, rendered. |
| Pipeline.RenderDefaultsToFalse | src/ja_normalizer/domain/services/pipeline.py:41-43 | A run without an explicit rendering flag is the unrendered run, and any result it gives is the raw correction. |
| Pipeline.FormatIgnoredWithoutRender | src/ja_normalizer/domain/services/pipeline.py:72-73 | Without rendering, two requests with the same text have identical runs, whatever their formats. |
| Pipeline.DetectOnceBeforeNormalize | src/ja_normalizer/domain/services/pipeline.py:63-69 | The detector is called exactly once, at position 0. The normalizer is called at most once, at position 1. |
| Pipeline.NoSpansGiveIdentity | src/ja_normalizer/domain/services/pipeline.py:63-77 | Assume the normalizer maps a span-free detection to the identity correction. Then a request where nothing is detected comes back unchanged, both raw and as text. |
| Pipeline.ExampleRun | src/ja_normalizer/domain/services/pipeline.py:63-77 | Take "非常に重要" with one detected span, and a normalizer that returns "とても重要" with one diff. The raw run returns that correction, and the TEXT-rendered run returns "とても重要". |

The port signatures are the types `Ports.Detector`, `Ports.Normalizer` and `Ports.TextAnalyzer` (src/ja_normalizer/domain/ports.py:41-62). Each is a function of its arguments alone.

## Left out

- Logging: the configuration, the debug messages and the warning on the fallback path. Their output is a side effect. But Python evaluates the debug calls' arguments at every log level: `len(detection.detection_spans)` and `detection.signature_score` (pipeline.py:64-66), and `len(correction.diffs)` (pipeline.py:70). So a detector that returns something other than a `DetectionResult`, such as `None`, raises `AttributeError` before the normalizer is called. A normalizer that returns a plain `str` raises there instead of having the `str` returned. The `Ports.Detector` and `Ports.Normalizer` types admit only ports that return the declared records, so those failures cannot arise in the model, just as with the `isinstance` guard.
- The `isinstance` guard that raises `TypeError`. A Dafny parameter of type `NormalizationRequest` cannot hold anything else.
- The fallback for an unhandled format (pipeline.py:81-83: warn, then return the raw result). Validation only admits the two members. But `NormalizationRequest` is neither frozen nor configured with `validate_assignment`, so two routes get around validation and reach this path: assigning `output_format` after construction, and building with `model_construct`. Because the dispatch compares with `is`, even the plain string `"text"` falls through to it. In the model a request's format is always one of the two members, so the match has no such case.
- Mutation after construction. Only `Token` is frozen (ports.py:31-33). The other records can be changed by assignment without being validated again. The model's records are immutable values, so a record that passed validation stays valid.
- The exact JSON text and Pydantic's serialisation machinery. `to_json` is modelled as a structured value with the same keys, key order and diff count.
- Floating point: scores are `real` and are only range-checked. NaN and infinities are not modelled.
- `TextAnalyzer.tokenize` is a type signature only. The pipeline never calls it, and its streaming `Iterable` result is modelled as a finite sequence.
- Concrete detector, normalizer and analyzer implementations. None exists in the domain layer.
- Validation of raw span data. `detection_spans` (models.py:57) and `diffs` (models.py:81) accept either span records that were already built, which Pydantic does not check again, or raw mappings, which Pydantic validates as spans. So a `DetectionResult` given the mapping of a span whose end precedes its start is rejected. The model's `MakeDetectionResult` and `CorrectionResult` take built records only, so that rejection path is left out, and span validity appears in their contracts as a hypothesis.
- The expectation that zero spans give an identity correction. Nothing in the code enforces it, so it appears only as an assumption (`Pipeline.IdentityOnNoSpans`).
- `CorrectionResult` has no constraint of its own, so it is built with the plain datatype constructor. Its `diffs` default to none, as with `default_factory=list`.

## Findings

| source | as written | input that shows it | evidently intended | confidence | as-written member | corrected member |
|---|---|---|---|---|---|---|
| src/ja_normalizer/domain/models.py:69-74 | The ordering validator is registered for a field named `end` and reads `start`. `CorrectionSpan` has neither field, so only `start_position >= 0` and `end_position > 0` are enforced. | `original_text="非常に"`, `suggestion="とても"`, `start_position=3`, `end_position=1` is accepted. | Reject `end_position <= start_position`, as `DetectionSpan` does. | medium, not executed. `field_validator` and `ValidationInfo` exist only in Pydantic v2. There the default `check_fields=None` checks that the decorated field exists, so defining `CorrectionSpan` most likely raises `PydanticUserError` (`decorator-missing-field`), and importing models.py and pipeline.py then fails. The "as written" column describes the class as it would behave with that check turned off (`check_fields=False`). | Models.MakeCorrectionSpan, Models.CorrectionSpanOrderingNotEnforced | Models.MakeCorrectionSpanChecked |

The corrected constructor carries the intended ordering. Nothing else in the model builds correction spans: the pipeline and the renderings take whatever spans the normalizer returns. So `CorrectionSpan.Valid` keeps the bounds the code enforces, and `CorrectionSpan.Ordered` names the promised ordering separately.
