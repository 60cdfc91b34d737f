# Drug verification workflow — a Dafny model

The system checks a photographed medicine pack against the NAFDAC Greenbook, Nigeria's public register of approved products. It has three AWS Lambda handlers:

- **Image processor** (`lambda/image_processor.py`):
  - stores the uploaded image in S3 under a key made from the timestamp and the verification id;
  - reads the pack with Textract OCR and scans every OCR line for registration numbers with five patterns;
  - picks the most confident candidate;
  - when no candidate is found, asks a vision model for the product name instead;
  - skips the OCR when the caller supplies a registration number by hand.
- **Validator** (`lambda/nafdac_validator_container.py`):
  - searches the Greenbook by number, or else by product name;
  - turns the rows of the results table into product records;
  - falls back to a small built-in table when the browser session fails;
  - stores one verification item in DynamoDB.
- **Workflow** (`lambda/verification_workflow.py`): calls the image processor, then the validator, and maps their failures to error replies.

The model has one Dafny module per handler, plus three supporting modules:

- `wrappers.dfy` (module `Wrappers`): `Option`, `Result`, and Python truthiness of an optional string.
- `py_strings.dfy` (module `PyStrings`): the parts of Python's `str` the handlers use — `isspace`, `strip`, `upper`, `split(c)[k]`, `join`.
- `reg_patterns.dfy` (module `RegPatterns`): hand-written matchers for the five registration-number regular expressions (with `re.IGNORECASE`), `re.finditer` over them, and the normalisation of each match.
- `image_processor.dfy` (module `ImageProcessor`): the S3 key, the data-URL strip, the candidate scan as the source's three nested loops, the first-maximum selection, the vision-model post-processing and the handler.
- `nafdac_validator.dfy` (module `NafdacValidator`): the search choice, the row loop, the three result shapes, the fallback table, the item construction, the table as a class, and the handler.
- `verification_workflow.dfy` (module `VerificationWorkflow`): the orchestrator as a method over the two invocation outcomes.

Collaborators are parameters:

- S3, Textract and the vision model;
- base64 decoding;
- the browser session;
- DynamoDB's `put_item` outcome;
- the clock;
- the two Lambda invocations.

Each handler returns, beside its response, a trace of the collaborator calls it made:

- the image processor records its S3, Textract and vision-model calls;
- the validator records its browser searches and the items it passes to `put_item`, whether or not the write succeeds;
- the workflow records its two Lambda invocations.

The trace is what lets the model say, for example, "no OCR before a 400" and "the validator is invoked at most once".

Two behaviours of the code, as modelled:

- **Hyphens.** No whitespace around the hyphen of a registration number is normalised. So `A4 - 101466` is not found by the two bare patterns, which need the hyphen directly after the digits.
- **Product name.** The whole first line of the vision model's reply is kept. A reply `Lisinopril 10mg Tablets` gives the product name `Lisinopril 10mg Tablets` (`ProductNameExample`).

## Model

| member | source | states |
|---|---|---|
| RegPatterns.MatchAt | lambda/image_processor.py:99-105 | a match of any of the five patterns starts where it was tried, lies inside the line, and its group is a non-empty run of letters, digits and hyphens ending where the match ends |
| RegPatterns.MatchLetterCode | lambda/image_processor.py:100 | a `[A-Z]\d{1,2}-\d{4,6}` match is well formed and its group is the whole matched text |
| RegPatterns.MatchDigitCode | lambda/image_processor.py:101 | a `\d{2}-\d{4,6}` match is well formed and its group is the whole matched text |
| RegPatterns.MatchLabelled | lambda/image_processor.py:102-104 | a `LABEL[:\s]*([A-Z0-9-]+)` match is well formed: it starts where it was tried, lies in the line, and its group is a non-empty run of code characters ending the match |
| RegPatterns.LabelledSound | lambda/image_processor.py:102-104 | a labelled match begins with the label (ignoring case), has only `[:\s]` between the label and the group, and its group is the longest run of code characters there |
| RegPatterns.LabelledComplete | lambda/image_processor.py:102-104 | the label, then any separators, then a code character always give a labelled match whose group starts at that character |
| RegPatterns.LetterCodeSound | lambda/image_processor.py:100 | what the letter-code matcher takes is a letter, one or two digits, a hyphen directly after them and four to six digits |
| RegPatterns.LetterCodeComplete | lambda/image_processor.py:100 | every string of that shape is matched whole by the letter-code matcher |
| RegPatterns.DigitCodeSound | lambda/image_processor.py:101 | what the digit-code matcher takes is two digits, a hyphen and four to six digits |
| RegPatterns.DigitCodeComplete | lambda/image_processor.py:101 | every string of that shape is matched whole by the digit-code matcher |
| RegPatterns.Scan | lambda/image_processor.py:108 | the leftmost-first scan reports only matcher hits, at or after its start, left to right and without overlap |
| RegPatterns.ScanComplete | lambda/image_processor.py:108 | the scan misses nothing: every position where the matcher matches is inside a reported match |
| RegPatterns.FindIterSound | lambda/image_processor.py:108 | `FindIter` (`finditer`, the scan from position 0): every match `finditer` reports is a match of the pattern at its start, and the matches are ordered and disjoint |
| RegPatterns.FindIterComplete | lambda/image_processor.py:108 | every position of the line where the pattern matches is covered by a reported match |
| RegPatterns.NormalizeUpper | lambda/image_processor.py:109-110 | `Normalize`: a normalised group (`strip().upper()` then the label removal) holds only upper-case letters, digits and hyphens |
| RegPatterns.NoSeparators | lambda/image_processor.py:110 | `StripLabel` (the `re.sub`): on upper-case code text it drops exactly a leading `NAFDAC`, `REG` or `NRN` and nothing else |
| RegPatterns.OneLabelOnly | lambda/image_processor.py:110 | only one label is removed: `REG` followed by any upper-case code text normalises to that text |
| RegPatterns.RepeatedLabelSurvives | lambda/image_processor.py:110 | a group `REGREG` followed by upper-case code text becomes `REG` followed by that text, so the candidate still begins with a label |
| PyStrings.Upper | lambda/image_processor.py:109 | `upper()` keeps the length; each letter becomes the upper-case letter equal to it ignoring case, and every other character is kept |
| PyStrings.StripSlice | lambda/image_processor.py:71 | `Strip` (`strip()`) keeps one contiguous slice, removes only stripped characters, and leaves neither end on one |
| PyStrings.StripNothing | lambda/image_processor.py:109 | stripping a text without stripped characters changes nothing |
| PyStrings.BeforeFirst | lambda/image_processor.py:71 | `split(c)[0]` has no `c`, is a prefix, and is followed by `c` unless it is the whole text |
| PyStrings.BeforeFirstOf | lambda/image_processor.py:71 | `split(c)[0]` of `a + c + b` is `a` when `a` has no `c` |
| PyStrings.JoinSnoc | lambda/image_processor.py:114 | `Join` (`' '.join`): joining one more part appends the separator and then that part |
| PyStrings.JoinLength | lambda/image_processor.py:114 | a joined text is as long as its parts together plus one separator between each two of them |
| PyStrings.IndexOf | lambda/image_processor.py:185 | the index found holds the first occurrence of the character |
| ImageProcessor.ImageKeyLayout | lambda/image_processor.py:20-23 | `ImageKey`: the key is `images/`, the timestamp, `_`, the id and `.jpg`, with nothing in between |
| ImageProcessor.ImageKeyInjective | lambda/image_processor.py:20-23 | with timestamps free of `_`, the key determines both timestamp and id |
| ImageProcessor.StripDataUrlSpec | lambda/image_processor.py:184-185 | `StripDataUrl` (through `SecondField`, `split(',')[1]`): without a comma the text is kept; with one, the kept text is what lies between the first and the second comma (or the end), so it holds no comma |
| ImageProcessor.ScanBlocks | lambda/image_processor.py:90-112 | the block loop collects exactly the LINE texts in order (`LineTexts`) and exactly the candidates of the LINE blocks, block by block (`BlockCandidates`) |
| ImageProcessor.ScanLine | lambda/image_processor.py:99-112 | the pattern loop appends, for each pattern in turn, the candidates of its matches (`PatternCandidates`) |
| ImageProcessor.AppendHits | lambda/image_processor.py:108-111 | the match loop appends one candidate per match, in match order, with the line's confidence (`HitCandidates`) |
| ImageProcessor.BlockCandidatesAppend | lambda/image_processor.py:93-111 | the candidates of two runs of blocks are those of the first followed by those of the second (line order) |
| ImageProcessor.LineCandidateOrder | lambda/image_processor.py:99-111 | within a line, the matches of the `i`-th pattern (letter code, digit code, NAFDAC, REG, NRN, in that order) come after those of all earlier patterns and before those of all later ones, one candidate per match in match order |
| ImageProcessor.PatternOrder | lambda/image_processor.py:107-111 | in any list of patterns, one pattern's candidates come between those of the patterns before it and those of the patterns after it |
| ImageProcessor.PatternCandidatesAppend | lambda/image_processor.py:107-111 | the candidates of two runs of patterns are those of the first followed by those of the second (pattern order) |
| ImageProcessor.HitCandidatesShape | lambda/image_processor.py:108-111 | candidates made from well-formed matches are upper-case code text carrying the given confidence |
| ImageProcessor.PatternCandidatesShape | lambda/image_processor.py:107-111 | every candidate of a line is upper-case code text carrying that line's confidence |
| ImageProcessor.CandidatesShape | lambda/image_processor.py:93-111 | every candidate is upper-case code text whose confidence is that of some LINE block |
| ImageProcessor.FirstMaxUnique | lambda/image_processor.py:118 | at most one index holds the first maximum confidence |
| ImageProcessor.SelectBest | lambda/image_processor.py:117-118 | `max(..., key=confidence)` returns a candidate of maximal confidence with no earlier candidate of equal confidence |
| ImageProcessor.ProductNameFirstLine | lambda/image_processor.py:70-78 | `ProductName` (through `CleanedReply`): the name is the first line of the reply stripped of whitespace and then of quotes: non-empty, without newline, followed by a newline or the end, not starting with a quote; None exactly when that line is empty, and None on any failure |
| ImageProcessor.FirstLineKept | lambda/image_processor.py:71-74 | a reply `first + "\n" + rest` with nothing to strip at either end gives `first` |
| ImageProcessor.ProductNameExample | lambda/image_processor.py:71-74 | the reply `Lisinopril 10mg Tablets\nTrust me` gives `Lisinopril 10mg Tablets` |
| ImageProcessor.StripEndsKept | lambda/image_processor.py:71 | stripping a text whose ends are not stripped characters changes nothing |
| ImageProcessor.ExtractNafdacNumberOcr | lambda/image_processor.py:81-140 | Textract is called once with the key. On failure: all fields None with text `''`. Otherwise: text is the LINE texts joined by single spaces. With candidates: the first most-confident one, no product name, no vision-model call. Without: no number or confidence, and the vision model is asked (once) exactly when there are image bytes |
| ImageProcessor.Handler | lambda/image_processor.py:164-235 | a falsy image gives 400 with no call at all, manual number or not. A decoding failure gives 500 before any call. The image is stored first, under the derived key, and a failed store gives 500. A truthy manual number is echoed with all OCR fields None and no OCR call. Otherwise the response carries the OCR result |
| NafdacValidator.ChooseSearch | lambda/nafdac_validator_container.py:38-46 | a truthy number is searched in `search_nrn` as "NAFDAC number"; otherwise the name in `search_product` as "product name"; the term is never empty |
| NafdacValidator.FallbackTermIsSearchTerm | lambda/nafdac_validator_container.py:146 | `nafdac_number or product_name` is exactly the term that was searched for |
| NafdacValidator.ParseRows | lambda/nafdac_validator_container.py:103-116 | the row loop appends one record (`ProductOf`) per row of at least ten cells, in page order (`ParsedRows`) |
| NafdacValidator.ParsedRowsAppend | lambda/nafdac_validator_container.py:105-116 | the records of two runs of rows are those of the first followed by those of the second (page order) |
| NafdacValidator.ParsedRowsBound | lambda/nafdac_validator_container.py:105-116 | there are never more records than rows |
| NafdacValidator.ParsedRowsEmpty | lambda/nafdac_validator_container.py:106-108 | there is no record exactly when every row has fewer than ten cells |
| NafdacValidator.ParsedRowsOrigin | lambda/nafdac_validator_container.py:106-116 | every record is made from cells 0, 1, 2, 3 and 9 of some row with at least ten cells |
| NafdacValidator.ProductTrimmed | lambda/nafdac_validator_container.py:109-115 | no field of a record begins or ends with whitespace |
| NafdacValidator.DummyResultSpec | lambda/nafdac_validator_container.py:149-176 | `DummyResult`: the built-in table always succeeds and echoes its term; it finds exactly `A4-101466`, with the single Paracetamol record, and otherwise gives the plain not-found message |
| NafdacValidator.Scrape | lambda/nafdac_validator_container.py:23-146 | the scrape returns `ScrapeResult` of its session outcome, whose verdicts the next four rows give; a browser session is started exactly once when there is a term, and never without one |
| NafdacValidator.SuccessIffTerm | lambda/nafdac_validator_container.py:31-36 | `success` is true exactly when a number or a name is truthy; without either the result is the fixed no-term result |
| NafdacValidator.RowsVerdict | lambda/nafdac_validator_container.py:121-138 | after rows are read: success; term, type and number echoed; found exactly when some record was parsed; found lists the records, not found carries the message naming the search type |
| NafdacValidator.TimeoutIsNotFound | lambda/nafdac_validator_container.py:86-100 | a results-table timeout is a successful not-found result, identical to a table without usable rows |
| NafdacValidator.FailureFallsBack | lambda/nafdac_validator_container.py:140-146 | any other session failure gives the built-in table's answer for the searched term |
| NafdacValidator.ItemDetermined | lambda/nafdac_validator_container.py:179-192 | `IsItemFor`: the stored values determine the whole item |
| NafdacValidator.BuildItem | lambda/nafdac_validator_container.py:179-192 | the item has keys `verificationId`, `timestamp`, `imageKey`, `validationResult`, `ttl` = now + 7776000, and `nafdacNumber` exactly when the number is truthy |
| NafdacValidator.VerificationTable.PutItem | lambda/nafdac_validator_container.py:194 | a successful write appends the item; a failed one stores nothing |
| NafdacValidator.HandlerValidationIsScrape | lambda/nafdac_validator_container.py:254-267 | `HandlerValidation`: the handler's own no-term branch gives the same result as the scrape's guard |
| NafdacValidator.LambdaHandler | lambda/nafdac_validator_container.py:222-311 | a falsy id or timestamp gives 400 "Missing required fields", no session and nothing stored. Otherwise validation comes first: exactly one browser search, the chosen one, when a number or name is truthy, and none otherwise. Then exactly one item for these values is passed to `put_item`. On success it is appended and the 200 body echoes id, timestamp, image key, number and result. A failed write gives 500 with its message and stores nothing |
| VerificationWorkflow.Handle | lambda/verification_workflow.py:38-126 | the image processor is invoked first and once, with the request. A status other than 200 returns its response unchanged. The validator is invoked at most once, exactly when the status is 200 and the body decodes, with that body. A function error gives 500 "NAFDAC validation failed" with the payload. An invocation failure gives 500 "Failed to invoke NAFDAC validator" with the message. Otherwise the validator's payload is returned unchanged |

## Left out

- **The infrastructure stacks** under `stacks/` and `app.py`: they declare resources and have no runtime behaviour.
- **Selenium.** The options, driver, page load, waits, selectors and `quit` are replaced by a session outcome: results-table timeout, rows of cell texts, or failure. The sleep and the wait timeouts are not modelled.
- **boto3.** `put_object`, `detect_document_text`, `invoke_model`, `put_item` and `invoke` are function parameters or outcome values. Bucket and table names, content type, model id and the prompt are not modelled.
- **Parsing and generated values.** JSON parsing and serialisation, base64 encoding and decoding, `uuid4`, `datetime.utcnow` and the unwrapping of `event['body']` are inputs. Only their results or failures enter the model.
- **Logging and headers.** Logging and the header constants are left out. The image handler's response records only whether CORS headers are sent.
- **Exceptions outside the modelled collaborators.** A Textract block without `BlockType`, non-string `image` or `nafdacNumber` values, and errors of logging and JSON serialisation inside the handlers are not modelled. These give 500 responses or the OCR failure result in the source.
- **Confidences** are `real`. They are only compared, and the model does not distinguish Textract's floats.
- MatchLetterCode: `[A-Z]` under `re.IGNORECASE` is modelled on ASCII letters. Python also lets `ı`, `ſ` and the Kelvin sign match it.
- MatchLabelled: the labels and `[A-Z0-9-]` are matched on ASCII case folding only. Python's extra Unicode case matches (`ı`, `ſ`, the Kelvin sign) are not modelled.
- MatchDigitCode: `\d` is modelled on ASCII digits. Python's `\d` on `str` also matches other Unicode decimal digits.
- CandidatesShape: it does not claim that a candidate has no leading `NAFDAC`/`REG`/`NRN`. That is false: only one label is removed, and `RepeatedLabelSurvives` shows that a group `REGREG1` gives the candidate `REG1`.
- PyStrings.Upper: only ASCII letters are upper-cased. Python's `upper()` also maps other letters, for example `ß` to `SS`. In this ASCII model no other character reaches `upper()` from the code text the patterns accept. In Python, `ı` and `ſ` also match `[A-Z]` and `[A-Z0-9-]` under `re.IGNORECASE`, and `upper()` then maps them to `I` and `S`.
- VerificationWorkflow.Handle: the validator payload `P` is the image processor's body as decoded JSON. The model does not tie it to the image handler's response fields, since the workflow only passes it on.
