# Resume analyser: a Dafny model

The resume analyser reads a PDF resume and extracts its text. It asks a
generative model to score the resume against a fixed rubric. It then reads
the overall score from the reply with the pattern `Overall Score:\s*(\d{1,3})`,
and asks for the candidate's details when the score is high enough. The
system has two front ends:

- the web service's `POST /analyze` handler (`app.py`). It answers with one
  JSON document and always deletes the temporary copy of the upload;
- the standalone script's `main` (`resume_analyzer.py`). It reads
  `resume.pdf`, stops at the first failure, and shows a quick view of the
  details.

This project models both front ends. It also models the pieces they share:

- the score pattern, with its greedy and leftmost `re.search` semantics and
  `int()`;
- the page-by-page text extraction;
- the shape of the two prompts.

The PDF library and the generative model are parameters. A document is what
the extractor observes of it: whether it opens, and each page's text or a
failure of that page. A model is a function from the prompt to the reply, and
`None` stands for an exception. The external effects are recorded in a log of
`Call`s, in order: saving and removing the temporary file, configuring the
key, reading the PDF, and the two model requests.

The modules are:

- `Wrappers`: `Option`.
- `Ascii`: the whitespace and digit classes, and `strip()`.
- `ScoreParser`: the pattern and the score.
- `PdfText`: text extraction.
- `Prompts`: the two requests.
- `Effects`: the log of external effects.
- `WebApp`: the handler. `HandleAnalyze` is its specification, and
  `Server.AnalyzeResume` is the step-by-step body over the server's files.
- `Standalone`: `main`. `MainOutcome` is its specification, and `RunMain`
  is the step-by-step body.

The standalone script requests details when the score is above 35, although
its messages speak of 55. The model follows the comparison in the code.

## Model

| member | source | states |
|---|---|---|
| Ascii.Strip | resume_analyzer.py:153 | `strip()` yields the empty string exactly when the text is whitespace only, and what it keeps begins and ends with a non-space |
| Ascii.StripInPlace | resume_analyzer.py:153 | `strip()` keeps exactly the characters of the text between its leading whitespace run and its trailing whitespace run, in place and in order |
| Ascii.TrimStart | resume_analyzer.py:153 | the leading whitespace run is removed and the rest is kept as a suffix that does not start with whitespace |
| Ascii.TrimEnd | resume_analyzer.py:153 | the trailing whitespace run is removed and the rest is kept as a prefix that does not end with whitespace |
| ScoreParser.DecimalValue | app.py:144 | `int()` of a digit string is below 10 to the power of its length |
| ScoreParser.LeadingZeroIgnored | app.py:144 | a leading zero does not change `int()`'s value |
| ScoreParser.SkipSpaces | app.py:142 | `\s*` consumes the longest whitespace run from a position |
| ScoreParser.TakeDigits | app.py:142 | `\d{1,3}` consumes the longest digit run from a position, up to three digits |
| ScoreParser.MatchAt | app.py:142 | `re.search`'s attempt at one position: the greedy match of the marker, `\s*` and `\d{1,3}` there; its value has at most three digits (partnered by `MatchAtIsPreferred` and `MatchAtNoneIff`) |
| ScoreParser.MatchAtIsPreferred | app.py:142 | the greedy matcher at a position returns the value of the match that the regex engine prefers there (longest whitespace run first, then longest digit group) |
| ScoreParser.MatchAtNoneIff | app.py:142 | the matcher at a position fails exactly when no whitespace and digit lengths make the pattern match there |
| ScoreParser.FirstFoundIsFound | app.py:142 | a left-to-right scan returns a result found at some position in the scanned range |
| ScoreParser.FirstFoundNoneIff | app.py:142 | the scan finds nothing exactly when every position in the range fails |
| ScoreParser.FirstFoundIsFirst | app.py:142 | the scan returns the result at the first position that succeeds |
| ScoreParser.ParseScore | app.py:141-144 | a parsed score has at most three digits, so it is at most 999 |
| ScoreParser.ParseScoreNoneIff | app.py:142-143 | `re.search` finds no match exactly when the pattern matches at no position and for no lengths |
| ScoreParser.ParseScoreIsLeftmost | app.py:142-144 | the score is the value of the preferred match at the leftmost position where the pattern matches |
| ScoreParser.MaximalPatternIsPreferred | app.py:142 | a match whose digit group is not followed by another digit (or already has three digits) is the preferred one at its position |
| ScoreParser.PatternOfParts | app.py:142 | the marker, a whitespace run and one to three digits, laid side by side, form a match whose group value is `int()` of the digits |
| ScoreParser.ParseScoreAfterPrefix | app.py:142-144 | the first match, after a prefix that holds no match, gives `int()` of its digits |
| ScoreParser.ParseScoreAfterMarker | app.py:142-144 | a text that starts with the marker, whitespace and a maximal digit group gives `int()` of those digits |
| ScoreParser.ScoreOrZero | app.py:141-144 | the web service's score is the parsed score, or 0 without a match |
| ScoreParser.ScoreAboveHundredKept | app.py:142-144 | `105/100` reads as 105: there is no clamping to 100 |
| ScoreParser.FourthDigitDropped | app.py:142-144 | `1000` reads as 100: only three digits are taken |
| ScoreParser.WhitespaceOptional | app.py:142-144 | no whitespace is needed after the colon |
| ScoreParser.LineBreaksAreWhitespace | app.py:142-144 | line breaks and tabs between the colon and the digits are skipped |
| ScoreParser.LeadingZerosAccepted | app.py:142-144 | `007` reads as 7 |
| ScoreParser.PatternShape | app.py:142 | every match starts with a capital O, and its digits start where the whitespace after the colon ends |
| ScoreParser.NoMatchBeforeNextMarker | app.py:142 | a marker that is not followed by digits, with no other capital O before a position, leaves no match before that position |
| ScoreParser.SkipSpacesOver | app.py:142 | `\s*` stops right after a given whitespace run |
| ScoreParser.BareMarkerSkipped | app.py:142-144 | a marker followed by something other than digits is passed over, and the next marker's digits are read |
| ScoreParser.MarkerWithoutDigitsSkipped | app.py:142-144 | `Overall Score: N/A` followed by a second marker with `80/100` reads as 80 |
| ScoreParser.MarkerIsCaseSensitive | app.py:142-144 | a lower-case `overall score:` does not match |
| PdfText.ConcatAppend | app.py:29 | joining page texts is compatible with splitting the document anywhere |
| PdfText.PageTextInPlace | app.py:29 | each page's text appears unchanged in the joined text, right after the pages before it |
| PdfText.FailedPageDiscardsAll | resume_analyzer.py:10-19 | a failure on any page makes the extracted text "", even after earlier pages were read |
| PdfText.ExtractTextFromPdf | resume_analyzer.py:8-19 | the page loop returns the in-order concatenation of the page texts, or "" when opening or any page fails |
| Prompts.AnalysisPromptShape | app.py:73 | the evaluation prompt is the template, a blank line, then the resume text unchanged |
| Prompts.AnalysisPromptInjective | resume_analyzer.py:66 | different resume texts give different evaluation prompts |
| Prompts.DetailsPromptShape | app.py:104-107 | the detail prompt holds the resume text unchanged between the instructions and the closing line |
| Prompts.DetailsPromptInjective | app.py:83-107 | different resume texts give different detail prompts |
| Prompts.GenerateAnalysis | app.py:73-79 | the evaluation is the model's reply to the prompt built from the resume text, or "" when the call raises |
| WebApp.HandleAnalyze | app.py:117-159 | a request is answered 400 exactly when the file is missing, and 200 exactly when the body carries an evaluation |
| WebApp.Server.AnalyzeResume | app.py:117-159 | the handler's body answers what `HandleAnalyze` answers and performs its effects in order; afterwards the temporary file is gone and the other files are unchanged |
| WebApp.MissingFileRejected | app.py:120-121 | without a `resume` field the answer is 400 with "No resume file provided", and nothing is written or requested |
| WebApp.AnalysisRequestedIffText | app.py:130-135 | empty text is answered 500; the model is asked exactly when the text is non-empty (whitespace included), and the prompt carries that text |
| WebApp.EmptyAnalysisRejected | app.py:135-138 | an empty evaluation is answered 500 with its message, and no details are requested |
| WebApp.SuccessfulResponse | app.py:140-159 | otherwise the answer is 200 with the evaluation unchanged, the parsed score (0 without a match) and the detail reply, which is `null` unless the score is above 55 |
| WebApp.FailedDetailsAnsweredWithNull | app.py:108-114 | when the detail call raises or its reply is not JSON, `extract_details` gives `None`; the request was still made, and the answer is still 200 with the evaluation, the score and `details: null` |
| WebApp.DetailsRequestedIffAboveThreshold | app.py:146-149 | details are requested exactly when text and an evaluation were obtained and the score is strictly above 55 |
| WebApp.TempFileAlwaysRemoved | app.py:126-152 | whenever the temporary file is saved, that is the first effect and its removal is the last, on every path |
| WebApp.ScoreAtThresholdGetsNoDetails | app.py:148 | a score of exactly 55 gets no details |
| WebApp.ScoreAboveThresholdGetsDetails | app.py:148-149 | a score of 56 gets the details |
| WebApp.EndToEnd | app.py:117-159 | a readable two-page resume scoring 80, with a well-formed detail reply, is answered 200 with that score and those details |
| Standalone.QuickViewCard | resume_analyzer.py:186-190 | the quick view shows the four fields in order, and "Not Found" for each one the reply lacks |
| Standalone.MainOutcome | resume_analyzer.py:140-147 | the run stops at the key check exactly when the key is unset or empty |
| Standalone.TextMissing | resume_analyzer.py:153 | `not text or not text.strip()` holds exactly when the text is whitespace only |
| Standalone.RunMain | resume_analyzer.py:136-193 | the script's body ends where `MainOutcome` says and performs exactly its effects |
| Standalone.MissingKeyStopsFirst | resume_analyzer.py:140-147 | without a key the run ends before any other effect |
| Standalone.AnalysisRequestedIffNotBlank | resume_analyzer.py:152-159 | with a key, the evaluation is requested exactly when the text has a non-whitespace character, and then with that text |
| Standalone.EmptyAnalysisStops | resume_analyzer.py:159-162 | an empty evaluation ends the run, and no details are requested |
| Standalone.MissingScoreStops | resume_analyzer.py:170-178 | an evaluation without a score ends the run; unlike the web service, the script does not fall back to 0 |
| Standalone.DetailsRequestedIffAboveThreshold | resume_analyzer.py:181-183 | details are requested exactly when a score was parsed and it is strictly above 35 |
| Standalone.QuickViewShownIffDetails | resume_analyzer.py:183-190 | after a detail request, the quick view is shown exactly when the reply is a non-empty dictionary, and the card it shows is `QuickViewCard` of the reply: name, email, phone and main skill in that order, each the reply's value or "Not Found" |
| Standalone.FailedDetailsShowNoQuickView | resume_analyzer.py:121-133 | when the detail call raises or its reply is not JSON, `extract_details` gives `None`; the request was still made, and the run ends without a quick view |
| Standalone.StricterThanWebService | resume_analyzer.py:153 | whenever the script sends the resume to the model, its text is non-empty and the web service sends it too (app.py:131 only rejects the empty text); a whitespace-only resume stops the script but is sent on by the web service |

## Left out

- The PDF library is a parameter. A document is only what the extractor observes of it: whether it opens, and each page's text or failure. Layout, encodings and `doc.close()` are not modelled.
- The generative model and `json.loads` are parameters, one function per request. A reply is the same for the same prompt. Network errors, quotas and nondeterminism are folded into `None`. The model name and `GenerationConfig` are not modelled.
- A detail reply is a dictionary from strings to strings. JSON values of other types, and replies that parse to a non-object, are not modelled.
- Prompts.AnalysisPrompt and Prompts.DetailsPrompt: the rubric and the instruction wording are replaced by condensed constants. Only the position of the resume text in each prompt is modelled, not the exact words.
- Flask's routing, CORS, the multipart parsing, `jsonify` and the server start-up are not modelled. A request is its optional `resume` upload, and a response is a status code and a JSON body.
- The web service configures the key once, at import time, and only prints when the key is missing. That configuration step is not modelled.
- Requests are handled one at a time. With concurrent requests, two handlers could share the fixed name `temp_resume.pdf`; that race is not modelled.
- Console output is not modelled. The standalone run is summarised by the point where it stops and by what the quick view would show.
- `\s`, `\d` and `strip()` are limited to ASCII. Python also accepts Unicode whitespace and Unicode decimal digits.
- Exceptions other than those caught in the source are not modelled. For example, an `os.remove` failure is not.
- `script.js`, the browser front end, is not part of this model. `check_models.py`, a utility that lists the available models, is not part of this model either.
