# MUDA-Analysis, modelled in Dafny

MUDA-Analysis is a browser application. A user selects manufacturing-floor
video clips, types a short context prompt and asks a generative-AI service for
a lean-manufacturing ("muda", waste) report. The report comes back as Markdown
text and is shown with its key terms coloured.

This project models the logic the application's code actually contains:

- **Admission gate and selection list** (`video_uploader.dfy`, module `VideoUploader`).
  Each file of a selected batch is dropped silently if its MIME type does not
  start with `video/`. A video over 19 MiB is skipped, and its name is reported in
  an alert. Every other file is accepted: it gets a fresh preview URL and is
  appended to the list. Removing an entry revokes its URL. The class `VideoList`
  holds the entries and the set of live preview URLs. Its invariant says that each
  entry owns exactly one live URL and that every live URL belongs to an entry.
- **Request assembly** (`gemini_service.dfy`, module `GeminiService`). A file
  becomes an inline part. Its payload is the text after the first comma of the
  file's data URL, and it keeps the file's declared MIME type. The part list is one
  such part per video, in order, then the prompt as a text part. A missing API key
  raises an error before anything is read or sent. The reply text is returned
  unchanged, and the temperature is always 0.4.
- **Run status** (`app.dfy`, module `App`). `AppState.HandleAnalyze` does nothing
  when there is no video or the prompt is blank. Otherwise the status moves to
  UPLOADING and then ANALYZING, and the request is made. The run ends COMPLETED,
  with the reply as the new result, or ERROR, with the previous result kept. The
  disabled conditions of the analyze button and the uploader are modelled as well.
- **Report keyword classifier** (`analysis_display.dfy`, module `AnalysisDisplay`).
  Bold text is classified by case-sensitive substring tests, and the first rule that
  matches wins. Main-work terms give green, incidental-work terms give yellow,
  waste terms give red, and anything else stays plain.

`types.dfy` holds the records of `types.ts`. `js_string.dfy` models the JavaScript
string operations the code uses: `startsWith`, `includes`, `trim` and
`split(',')`.

The remote service call, the system-prompt table (`getSystemPrompt`), the API key
and the clock (`Date.now()`) are parameters. The remote service is any function
from requests to replies, so every reply, success or failure, is covered. A file's
content is represented by its base64 text. Preview URLs are numbers handed out by
a counter, so each new URL differs from every earlier one.

The interface texts promise limits the code does not apply. The English labels
in `constants.ts` say "Max 200MB per file" (line 22) and "200MB or 10mins"
(line 39), and the Japanese and Vietnamese tables say the same. The uploader's
hint and its skip alert say 20MB (`components/VideoUploader.tsx`, lines 32 and
69). The code has no duration check, no frame sampling and no second size
threshold. It sends every admitted file whole and applies one limit:
19 MiB (19,922,944 bytes) in `services/geminiService.ts`. The model follows the code.

## Model

| member | source | states |
|---|---|---|
| `GeminiService.SizeLimitBoundary` | services/geminiService.ts:4-8 | `checkFileSize` holds iff the size is at most 19,922,944 bytes; exactly that many bytes pass, one more byte fails |
| `GeminiService.StripDataUrlHeader` | services/geminiService.ts:15 | `split(',')[1]` is defined iff the data URL has a comma; the result has no comma, starts right after the first comma, and ends at the next comma or at the end |
| `GeminiService.StripHeaderOfDataUrl` | services/geminiService.ts:13-16 | for a comma-free type and base64 content, stripping the header of `data:<type>;base64,<content>` gives back exactly the content, so no header text reaches the payload |
| `GeminiService.FileToGenerativePart` | services/geminiService.ts:21-26 | every file becomes an inline part whose `mimeType` is the file's declared type, unchanged |
| `GeminiService.FilePartCarriesContent` | services/geminiService.ts:10-27 | the inline part of a well-formed file carries its whole encoded content and its type |
| `GeminiService.VideoParts` | services/geminiService.ts:42 | one part per video, and part i comes from video i |
| `GeminiService.Contents` | services/geminiService.ts:45-48 | the part list has one more entry than there are videos; part i is video i's inline part with its type, and the last part is the prompt verbatim |
| `GeminiService.RequestFor` | services/geminiService.ts:51-60 | the request names the given model and system instruction, uses temperature 0.4, and ends with the prompt text |
| `GeminiService.AnalyzeVideo` | services/geminiService.ts:29-67 | the missing-key error happens iff the key is unset or empty, and then nothing is sent; otherwise the request is sent, and the reply text is returned unmodified or the remote failure is rethrown |
| `JsString.Split` | services/geminiService.ts:15 | `split(',')` yields comma-free pieces that join back to the input; it has more than one piece iff there is a comma, and the first piece runs up to the first comma |
| `JsString.SplitJoin` | services/geminiService.ts:15 | splitting a join of comma-free pieces gives the pieces back, so the split is unique |
| `VideoUploader.Admit` | components/VideoUploader.tsx:20-28 | a file is accepted iff it is a video within the size limit, skipped iff it is a video over the limit, and dropped iff it is not a video |
| `VideoUploader.BatchIsPartitioned` | components/VideoUploader.tsx:18-29 | the accepted, skipped and dropped counts sum to the batch size |
| `VideoUploader.AcceptedAreAdmissible` | components/VideoUploader.tsx:20-28 | every accepted file has a `video/` type and passes `checkFileSize` |
| `VideoUploader.OutcomesOfConcatenation` | components/VideoUploader.tsx:18-29 | the accepted files, skipped names and dropped count of a batch are those of its parts, in input order |
| `VideoUploader.NonVideoIsDroppedSilently` | components/VideoUploader.tsx:20-22 | a non-video file adds nothing to the accepted files or the skipped names, only to the dropped count |
| `VideoUploader.DistinctUrlsCount` | components/VideoUploader.tsx:27-28 | entries with distinct preview URLs own exactly as many URLs as there are entries |
| `VideoUploader.UrlsWithout` | components/VideoUploader.tsx:44-45 | splicing out entry i drops exactly its URL from the URL set and keeps the URLs distinct |
| `VideoUploader.Admitted` | components/VideoUploader.tsx:27-28 | the entries a batch adds: the accepted files in order, each with its own new URL |
| `VideoUploader.AppendFreshUrls` | components/VideoUploader.tsx:35 | appending entries with newly created URLs keeps the old entries in front and all URLs distinct |
| `VideoUploader.VideoList.constructor` | components/VideoUploader.tsx:13-48 | a new selection list is empty, owns no live URL and satisfies the invariant |
| `VideoUploader.VideoList.LiveMatchesEntries` | components/VideoUploader.tsx:27-28 | under the invariant there are exactly as many live preview URLs as entries |
| `VideoUploader.VideoList.CreateObjectUrl` | components/VideoUploader.tsx:27 | `URL.createObjectURL` returns a URL that was not live before and makes it live |
| `VideoUploader.VideoList.RevokeObjectUrl` | components/VideoUploader.tsx:44 | `URL.revokeObjectURL` removes the URL from the live set |
| `VideoUploader.VideoList.ClassifyBatch` | components/VideoUploader.tsx:18-29 | the loop gives the skipped names in input order and the admitted entries, creating exactly one URL per accepted file |
| `VideoUploader.VideoList.HandleFileChange` | components/VideoUploader.tsx:13-39 | keeps the invariant; the skipped list is exactly the names of the oversize videos in order; the alert is raised iff that list is non-empty; the new list is the old list followed by the admitted entries; the live URLs grow by one new URL per accepted file; the URL counter advances by exactly the number of accepted files |
| `VideoUploader.VideoList.RemoveVideo` | components/VideoUploader.tsx:41-48 | keeps the invariant; the list loses entry i and keeps the others in order; exactly that entry's URL, which was live, is revoked, no remaining entry uses it, and it lies below the next URL to be handed out, so it is never issued or revoked again |
| `App.CanAnalyzeIff` | App.tsx:23 | the run guard passes iff there is a video and the prompt has a non-white-space character |
| `JsString.TrimEmptyIffBlank` | App.tsx:23 | `!s.trim()` holds iff every character of `s` is ECMAScript white space or a line terminator |
| `JsString.TrimStartSpec` | App.tsx:23 | trimming the front drops only white space and leaves a suffix that is empty or starts with a non-white character |
| `JsString.TrimEndSpec` | App.tsx:23 | trimming the end drops only white space and leaves a prefix that is empty or ends with a non-white character |
| `App.ButtonEnabledIffRunnable` | App.tsx:138 | the analyze button is enabled iff the run guard passes and no request is in flight; during ANALYZING both the button and the uploader are disabled |
| `App.AppState.constructor` | App.tsx:10-14 | the application starts IDLE with no videos, no result, an empty prompt and Japanese |
| `App.AppState.SelectFiles` | App.tsx:105-110 | while the uploader is disabled (UPLOADING or ANALYZING) a selection changes nothing; otherwise it is `handleFileChange`, including the advance of the URL counter |
| `App.AppState.RemoveAt` | App.tsx:105-110 | while the uploader is disabled a removal changes nothing; otherwise it is `removeVideo`, and the URL counter stays where it was |
| `App.AppState.HandleAnalyze` | App.tsx:22-47 | no-op on an empty list or a blank prompt; otherwise UPLOADING, then ANALYZING, then the request with the untrimmed prompt and the language's system prompt; success gives COMPLETED with the reply as the new result, failure gives ERROR with the old result kept |
| `App.AppState.RecordOutcome` | App.tsx:38-46 | a returned text becomes the new result, stamped with the given time, and the status is COMPLETED; a thrown error sets ERROR and leaves the result as it was |
| `VideoUploader.RevokedUrlIsNeverReissued` | components/VideoUploader.tsx:41-48 | after a removal and two later selections the removed entry's URL is still not live and no entry uses it |
| `JsString.IncludesIffOccurs` | components/AnalysisDisplay.tsx:41-43 | `includes` holds iff some window of the text equals the keyword |
| `AnalysisDisplay.ClassifyByOccurrence` | components/AnalysisDisplay.tsx:39-45 | green iff a main-work term occurs; yellow iff none does and an incidental term does; red iff neither does and a waste term does; plain iff no term occurs |
| `AnalysisDisplay.FirstRuleWins` | components/AnalysisDisplay.tsx:41-43 | every label mentioning a main-work term is green, whatever incidental or waste terms it also mentions |
| `AnalysisDisplay.SecondRuleBeatsThird` | components/AnalysisDisplay.tsx:42-43 | a label with no main-work term and an incidental term is yellow, even if it also mentions waste |
| `AnalysisDisplay.FirstRuleWinsExample` | components/AnalysisDisplay.tsx:41-43 | the label `Main Work / Waste` is green |
| `AnalysisDisplay.MatchingIsCaseSensitive` | components/AnalysisDisplay.tsx:43 | lower-case `waste` is plain, not red |
| `AnalysisDisplay.RenderStrong` | components/AnalysisDisplay.tsx:39-45 | the children are kept unchanged; the result is plain bold iff no rule matches, and otherwise a badge of the matched colour |
| `AnalysisDisplay.Display` | components/AnalysisDisplay.tsx:12 | nothing is shown iff there is no result; otherwise the report text is passed on verbatim |
| `GeminiService.ReadAsDataUrl` | services/geminiService.ts:12-18 | defined as: the result assumed for `readAsDataURL`, the header `data:<type>;base64`, a comma, then the base64 content, for every file |
| `GeminiService.HasApiKey` | services/geminiService.ts:35 | defined as: `!process.env.API_KEY` is false, that is, the key is set and not the empty string |
| `GeminiService.CheckFileSize` | services/geminiService.ts:6-8 | defined as: the file's size is at most `MAX_FILE_SIZE_BYTES`, 19 × 1024 × 1024 |
| `VideoUploader.IsVideo` | components/VideoUploader.tsx:20 | defined as: the declared MIME type starts with `video/`, case-sensitively |
| `VideoUploader.AcceptedFiles` | components/VideoUploader.tsx:18-29 | defined as: the files of the batch whose verdict is accepted, in input order (the `newFiles` list without URLs) |
| `VideoUploader.SkippedNames` | components/VideoUploader.tsx:18-29 | defined as: the names of the files whose verdict is skipped, in input order (the `skippedFiles` list) |
| `VideoUploader.DroppedCount` | components/VideoUploader.tsx:18-22 | defined as: the number of files whose verdict is dropped (the early `return` for non-videos) |
| `App.CanAnalyze` | App.tsx:23 | defined as: the list is non-empty and the trimmed prompt is not empty, the negation of the early-return test |
| `App.AnalyzeButtonDisabled` | App.tsx:138 | defined as: no videos, or a blank prompt, or status ANALYZING |
| `App.UploaderDisabled` | App.tsx:108 | defined as: status ANALYZING or UPLOADING |
| `JsString.StartsWith` | components/VideoUploader.tsx:20 | defined as: the prefix of the string of the pattern's length equals the pattern |
| `JsString.Includes` | components/AnalysisDisplay.tsx:41-43 | defined as: the keyword is a prefix of the string or of one of its tails |
| `JsString.Trim` | App.tsx:23 | defined as: leading, then trailing, ECMAScript white space and line terminators removed |
| `AnalysisDisplay.Classify` | components/AnalysisDisplay.tsx:40-44 | defined as: the three `includes` tests in source order, first match wins, else plain |

## Left out

- GeminiService.ReadAsDataUrl: the data-URL shape `data:<type>;base64,<content>` is assumed for every file, an empty (0-byte) file included. A browser may return a bare `data:` with no comma for an empty file. Then `split(',')[1]` is `undefined`, whereas the model gives an empty payload, so `StripHeaderOfDataUrl` and `FilePartCarriesContent` rest on this assumption.
- Base64 encoding and `FileReader` are not modelled. A file carries its base64 text, and the data URL is built from it. A read failure makes the real callback throw, so the run never settles. That case is not modelled.
- `GeminiService.StripHeaderOfDataUrl` and `GeminiService.FilePartCarriesContent` require a declared MIME type without a comma. Browsers derive `File.type` from the file extension, which gives types without parameters.
- The SDK call (`GoogleGenAI`, `generateContent`) is a function parameter. A reply whose `text` is `undefined` is not modelled: a reply text is always a string.
- `constants.ts` and `getSystemPrompt` are a `Language -> string` parameter. The translation tables are presentation data and are not modelled.
- `process.env.API_KEY` is an optional-string parameter, and `Date.now()` is an integer parameter.
- The async/await steps and React state scheduling are not modelled. Each handler is one atomic step. The intermediate statuses of a run are reported as the sequence `shown`.
- Resetting the file input (`event.target.value = ''`) and `console.error` logging are DOM and console side effects, and are not modelled.
- `removeVideo` with an index outside the list throws in the source. The only callers are buttons rendered per entry, so `RemoveVideo` requires a valid index.
- JSX layout, the Markdown renderer, the MB display with `toFixed`, the language buttons and the prompt text area are presentation, and are not modelled.
- `String(children)` of non-string children is not modelled. The classifier takes the bold text as a string.
