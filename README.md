# AI_Translator — a Dafny model of the translation pipeline

AI_Translator is a small Flask application. A user uploads a subtitle file (SRT or ASS) or a document (DOCX, TXT or PDF) and picks an AI provider (Gemini or DeepSeek), a translation style and a target language. A background worker then translates the file unit by unit and reports its progress into an in-memory task registry. This project models the core of that pipeline and proves properties of the model:

- **Chunker** (`chunker.dfy`): `chunk_text` packs `'\n'`-separated lines greedily into chunks of at most 4000 characters. It is modelled as a fold (`Chunks`) and as the loop as written (`ChunkText`).
- **Units** (`units.dfy`): the unit loop that all four format handlers share. Each unit is visited once. A unit is skipped when it is blank (docx and subtitles only). Every other unit gets one `translate_func` call, and every unit gets one progress report of `ceil(k*100/n)`. The loop stops at the first call that raises.
  - Docx and subtitles rewrite an `array` of units in place (`RewriteUnits`).
  - Txt and pdf collect the translated chunks (`TranslateChunks`).
- **Format handlers** (`doc_handler.dfy`, `sub_handler.dfy`):
  - `translate_docx`, `translate_txt`, `translate_pdf` and `translate_subtitle`. Each is a method proved equal to a specification function of the loaded file.
  - `is_rtl` and the right-to-left formatting.
  - The PDF output path.
  - The UTF-8 load of subtitles, with its Latin-1 fallback.
- **Retry policy and back ends** (`retries.dfy`, `ai_handler.dfy`, `prompts.dfy`):
  - The three-attempt loop of `translate_gemini` and `translate_deepseek`: the 5-second retry delay, the per-provider pacing sleep, and the failure marker.
  - `set_proxy`, `get_translator_func`, `detect_language` and the prompt with its style table.
- **Application** (`app.dfy`):
  - The `tasks` registry as a class with `update_task_progress`.
  - `translation_worker`: provider selection, dispatch by file type and extension, and the terminal `completed` / `error` states.
  - `handle_translation_request`: its 400 answers, the output file name and the API-key choice.
- **Helpers** (`text.dfy`, `paths.dfy`, `progress.dfy`, `common.dfy`): the Python string and path functions the core relies on.
  - `str.strip`, `str.lower` and `split('\n')` / `'\n'.join`.
  - `os.path.splitext`, `basename` and `join`.
  - The ceiling percentage.

The remote models, the file loaders and savers, `secure_filename`, `uuid4` and `langdetect` are parameters of the model (oracles).

- A translate function is `(k, text) -> Reply`: the reply to its k-th call. It either answers or raises.
- The network is a function from the call number and the request to the outcomes of that call's attempts.
- Sleeps are recorded in milliseconds and are not taken.

Three behaviours of the code a reader might not expect:

- **Blank chunks are sent.** Only the docx and subtitle loops skip blank units. The txt and pdf loops send every chunk to the translator, including a blank one (`Units.CallsSkipNothing`).
- **Empty lines can be lost.** `chunk_text` drops an empty line that arrives while the current chunk is empty. So joining the chunks gives the original text back only when the text has no empty line (`Chunker.ChunksRejoin`). In general the chunks hold the text's lines with some empty lines removed (`Chunker.ChunksKeepLines`).
- **Three units report 34, 67, 100.** The percentage is rounded up, so three units report 34, 67 and 100, not 33, 67 and 100 (`Progress.ThreeUnits`).

## Model

| member | source | states |
|---|---|---|
| Progress.CeilPercent | modules/doc_handler.py:62 | the percentage r is the least integer with `100*k <= n*r`, i.e. `ceil(k*100/n)` |
| Progress.PercentRange | modules/doc_handler.py:61-62 | after the k-th of n units (1 <= k <= n) the percentage lies in 1..100 |
| Progress.PercentMonotone | modules/doc_handler.py:61-62 | the percentage never decreases as more units are processed |
| Progress.PercentFull | modules/doc_handler.py:61-62 | the last unit reports exactly 100 |
| Progress.ThreeUnits | modules/sub_handler.py:24 | three units report 34, 67 and 100 |
| Chunker.ChunkText | modules/doc_handler.py:19-36 | the loop as written yields exactly the chunks of the greedy fold `Chunks` |
| Chunker.ChunksNonEmpty | modules/doc_handler.py:34-35 | no chunk is empty, and no chunk starts with an empty line |
| Chunker.ChunksOfEmptyText | modules/doc_handler.py:19-36 | the empty text yields no chunk at all |
| Chunker.ChunksFit | modules/doc_handler.py:25-28 | a chunk of several lines fits in the maximum size; a longer chunk is a single line of the text, never split |
| Chunker.ChunksGreedy | modules/doc_handler.py:25-33 | each chunk is closed only because a newline and the next chunk's first line would exceed the maximum |
| Chunker.ChunksKeepLines | modules/doc_handler.py:21-35 | the lines of the chunks, in order, are the text's lines with some empty lines removed; the non-empty lines are exactly the text's |
| Chunker.ChunksRejoin | modules/doc_handler.py:21-36 | when the text has no empty line, joining the chunks with newlines gives the text back |
| Units.HaltFrom | modules/doc_handler.py:76-80 | the loop stops at the first unit whose call raises; every earlier call answered |
| Units.HaltAllDone | modules/doc_handler.py:76-80 | a loop that reaches the end had an answer for every chunk |
| Units.CallsFromTexts | modules/doc_handler.py:45-48 | every text handed to the translator is the text of a unit that is not skipped |
| Units.CallOrder | modules/doc_handler.py:44-48 | the text of every unit that is not skipped is sent, at its position among the calls, in unit order |
| Units.CallSkipped | modules/doc_handler.py:45 | a blank unit makes no call |
| Units.CallsSkipNothing | modules/doc_handler.py:76-77 | the txt and pdf loops send every chunk, blank or not, in order |
| Units.ReportsTrace | modules/doc_handler.py:61-63 | every report lies in 1..100, the reports never decrease, and a complete run ends with 100 |
| Units.ProgressMessage | modules/doc_handler.py:63 | the progress message starts with `Translating `, the unit noun and a space, and ends with `...` |
| Units.TranslateChunks | modules/doc_handler.py:76-80 | translated chunk i is the answer to call i; the sent texts are the chunks visited; one report per answered chunk; the failure is the error of the first call that raised |
| Units.VisitUnit | modules/doc_handler.py:45-59 | a unit is sent iff it is not blank; the visit fails iff that call raised; otherwise the unit becomes its rewrite |
| Units.RewriteUnits | modules/doc_handler.py:44-63 | the array afterwards holds the units rewritten up to the first raising call and unchanged after; sent texts, reports and failure as the loop makes them |
| Units.RewriteAll | modules/doc_handler.py:44-59 | after a run to the end, a blank unit is unchanged and every other unit is rewritten with the answer to its own call |
| DocHandler.IsRtl | modules/doc_handler.py:14-17 | right-to-left iff the code spells one of `fa`, `ar`, `he`, `ur` letter by letter, whatever the case of its letters |
| DocHandler.IsRtlIgnoresCase | modules/doc_handler.py:14-17 | the right-to-left test ignores case; `FA`, `Ar`, `he`, `UR` are right-to-left; `en`, `fas` and the empty code are not |
| DocHandler.Rewritten | modules/doc_handler.py:51-59 | the paragraph's runs are replaced by one unformatted run of the translation; its style is kept; for a right-to-left target it is right-aligned and right-to-left, otherwise its alignment and direction are kept |
| DocHandler.RewrittenText | modules/doc_handler.py:51-59 | a rewritten paragraph's text is the translation; its style is kept; it is right-aligned and right-to-left exactly for a right-to-left target, else its alignment is kept |
| DocHandler.TranslateDocx | modules/doc_handler.py:38-65 | the method yields exactly the reports and saved document of `DocxTranslation` |
| DocHandler.DocxSaved | modules/doc_handler.py:44-65 | a saved document has as many paragraphs as the loaded one and one report per paragraph, ending at 100; blank paragraphs are unchanged; others hold the answer to their own call as one run, keep their style, and get the right-to-left settings iff the target is right-to-left |
| DocHandler.TranslateTxt | modules/doc_handler.py:67-83 | the method yields exactly the reports and written text of `TxtTranslation` |
| DocHandler.TxtReports | modules/doc_handler.py:76-80 | at most one report per chunk, never decreasing; on success exactly one per chunk, the last being 100 |
| DocHandler.TxtIdentityRoundTrip | modules/doc_handler.py:67-83 | with a translator that returns its input and a text without empty lines, the written file is the text read |
| DocHandler.PagesText | modules/doc_handler.py:88-91 | the full text is every page's text followed by a newline |
| DocHandler.FullTextLines | modules/doc_handler.py:88-93 | the lines of the full text are the lines of the pages followed by one empty line |
| DocHandler.BuildPdfDocument | modules/doc_handler.py:104-110 | the loop builds exactly the paragraphs `PdfParagraphs` describes |
| DocHandler.PdfParagraphs | modules/doc_handler.py:105-107 | one paragraph per line of the translated chunks |
| DocHandler.NewParagraph | modules/doc_handler.py:107-110 | an added paragraph has no run iff its line is empty and no style; it is right-aligned and right-to-left for a right-to-left target, otherwise alignment and direction are unset |
| DocHandler.NewParagraphText | modules/doc_handler.py:107 | a new paragraph's text is the line it was added with |
| DocHandler.PdfParagraphsHoldTranslation | modules/doc_handler.py:104-110 | no paragraph of the output holds a newline, and joining the paragraphs' texts with newlines gives the joined translations |
| DocHandler.PdfOutputPath | modules/doc_handler.py:113 | the output path ends with `_translated.docx` |
| DocHandler.PdfOutputPathStem | modules/doc_handler.py:113 | the output path is the given path, cut at its extension's dot if it has one, followed by `_translated.docx` |
| DocHandler.TranslatePdf | modules/doc_handler.py:85-115 | the method yields exactly the reports, output path and document of `PdfTranslation` |
| SubHandler.LoadSubtitles | modules/sub_handler.py:8-12 | the UTF-8 decode when it succeeds, else the Latin-1 decode; the load fails iff both fail |
| SubHandler.TranslateSubtitle | modules/sub_handler.py:6-27 | the method yields exactly the reports and saved track of `SubtitleTranslation` |
| SubHandler.SubtitleSaved | modules/sub_handler.py:16-27 | a saved track has as many events as the loaded one and one report per event, ending at 100; blank events are unchanged; the others differ only in their text, which is the answer to their own call |
| SubHandler.SubtitleReports | modules/sub_handler.py:24-25 | at most one report per event, each in 1..100, never decreasing |
| SubHandler.EmptyTrack | modules/sub_handler.py:14-27 | an empty track makes no report and is saved empty |
| Retries.PaceMillis | modules/ai_handler.py:12-19 | the pacing sleep shares one minute among the provider's requests per minute (1200 ms for Gemini, 2400 ms for DeepSeek) |
| Retries.ReplyOf | modules/ai_handler.py:81-91 | the translate function raises iff the loop let an error escape; an answer is returned stripped; giving up returns the marked text |
| Retries.Retry | modules/ai_handler.py:81-91 | a call sends between 1 and 3 requests; only DeepSeek lets an error escape; giving up returns the provider's failure marker followed by the original text |
| Retries.RetryLoop | modules/ai_handler.py:81-91 | the loop ends, with the requests and sleeps it made, exactly as `Retry` describes |
| Retries.RetryFirstAnswer | modules/ai_handler.py:81-89 | after i unreachable attempts, an answer is returned from request i+1, after i retry delays and one pacing sleep |
| Retries.RetryAllFail | modules/ai_handler.py:81-91 | three unreachable attempts give up with the marker and the text, after 3 requests and exactly two retry delays |
| Retries.GeminiUnreadableRetried | modules/ai_handler.py:83-89 | a Gemini response whose text cannot be read is paced, caught and retried |
| Retries.DeepSeekUnreadableEscapes | modules/ai_handler.py:110-115 | a DeepSeek reply without a translation escapes at once, with no further request and no pacing |
| Retries.GeminiFirstAnswer | modules/ai_handler.py:81-89 | for Gemini, after failures of any kind on the attempts before i, the answer of attempt i is returned, after i+1 requests |
| Retries.RetryDelaysBetweenRequests | modules/ai_handler.py:81-91 | a call waits exactly one retry delay between consecutive requests and none otherwise, so requests minus one delays; it gives up only after all three attempts |
| Retries.RetryPacesAnswer | modules/ai_handler.py:81-85 | an answered call returns the text of one of its attempts, and its last sleep is the pacing sleep |
| AiHandler.GetTranslatorFunc | modules/ai_handler.py:122-129 | a translator exists iff the name is `gemini` or `deepseek` and is that provider's; any other name fails with `Invalid AI provider specified.` |
| AiHandler.SetProxy | modules/ai_handler.py:21-31 | a non-empty URL sets both proxy variables and is returned for both schemes; otherwise both variables are removed and nothing is returned; no other variable changes |
| AiHandler.SetProxyIdempotent | modules/ai_handler.py:21-31 | setting the same proxy twice is the same as setting it once |
| AiHandler.TranslateGemini | modules/ai_handler.py:73-91 | the proxy is set, the retry loop runs on the call's request, and the reply is the loop's, never an exception |
| AiHandler.TranslateDeepSeek | modules/ai_handler.py:93-120 | the proxy is set and its mapping returned, the retry loop runs on the call's request, and the reply is the loop's |
| AiHandler.Translator | modules/ai_handler.py:73-120 | the translate function a handler gets raises only when the provider is DeepSeek |
| AiHandler.GeminiTranslatorNeverRaises | modules/ai_handler.py:81-91 | the translate function a handler gets for Gemini never raises |
| Prompts.DetectLanguage | modules/ai_handler.py:33-38 | the detected language, or `en` when detection fails |
| Prompts.Prefix | modules/ai_handler.py:43 | `text[:n]`: the first n characters, or all of a shorter text |
| Prompts.DetectionUsesPrefix | modules/ai_handler.py:42-44 | the source-language phrase depends only on the first 200 characters |
| Prompts.ParseStyle | modules/ai_handler.py:48-56 | a style is found only under its own name |
| Prompts.ParseStyleName | modules/ai_handler.py:48-56 | each of the seven styles is found under its name |
| Prompts.Instruction | modules/ai_handler.py:48-56 | every style has a non-empty instruction |
| Prompts.StyleInstruction | modules/ai_handler.py:60 | the instruction is empty iff the style name is unknown, else it is that style's |
| Prompts.SourceLangText | modules/ai_handler.py:42-46 | the phrase names the given source language, or the language detected from the first 200 characters |
| Prompts.TaskLine | modules/ai_handler.py:59 | the task line names the target language |
| Prompts.StyleLine | modules/ai_handler.py:60 | the style line holds the style's instruction |
| Prompts.RulesAndText | modules/ai_handler.py:61-70 | the closing block holds the text to translate |
| Prompts.Prompt | modules/ai_handler.py:58-71 | the prompt contains the text, the target language, the style instruction and the source-language phrase |
| Text.Strip | modules/doc_handler.py:45 | the stripped string is the string with only whitespace removed before and after it, and it has no whitespace at either end; it is empty iff the string is blank |
| Text.StripBlank | modules/doc_handler.py:45 | stripping leaves nothing iff the string is whitespace only |
| Text.Lower | modules/doc_handler.py:17 | same length, every character lower-cased |
| Text.Split | modules/doc_handler.py:21 | splitting on newlines gives at least one piece, and no piece holds a newline |
| Text.JoinSplit | modules/doc_handler.py:21 | joining the pieces with newlines gives the string back |
| Text.SplitJoinLines | modules/doc_handler.py:106 | splitting joined chunks gives the lines of the chunks, in order |
| Text.NatToString | modules/doc_handler.py:63 | decimal digits without a leading zero whose value (`DigitsValue`) is the number |
| Paths.SplitExt | app.py:86 | root plus extension is the path; the extension is empty or a dot followed by no dot or slash; it is non-empty iff the last path component has a dot preceded by some character of that component other than a dot |
| Paths.Basename | app.py:56 | the base name is a suffix of the path without a slash, and it is the whole path or directly follows a slash |
| Paths.PathJoin | app.py:82 | for a non-empty folder without a trailing slash: the joined path ends with the name; an absolute name replaces the folder, otherwise the path is the folder, a slash and the name |
| Paths.BasenameOfJoin | app.py:88 | the base name of a folder joined with a plain file name is that name |
| Paths.SplitExtUnder | app.py:82 | putting a plain file name under a folder does not change its extension |
| Paths.SplitExtInsert | app.py:86-87 | text without a dot or slash inserted before the extension keeps that extension |
| App.Applied | app.py:25-29 | after the reports, the task is processing with the last report's progress and message; no report leaves it unchanged |
| App.Settled | app.py:52-61 | the task ends completed iff the run succeeded, with 100, the completion message and `/downloads/` plus the output's base name; on error the message is the exception's, and the progress and download URL are those left by the last report |
| App.HandlerFor | app.py:40-50 | subtitles by file type; a document goes to a handler iff its lower-cased extension is `.docx`, `.txt` or `.pdf`; only `.pdf` goes to the PDF handler |
| App.Dispatched | app.py:38-50 | no handler means success at the output path; success ends at the output path, or at the PDF output path for a PDF |
| App.SelectTranslator | app.py:36 | a translator iff the form's provider is `gemini` or `deepseek`, else the invalid-provider error |
| App.WorkerRun | app.py:31-61 | an unknown provider ends the run before any report with the invalid-provider error |
| App.WorkerRunAsWritten | app.py:40-50 | as written, a run succeeds iff the provider is known and no handler is dispatched; it never reports progress |
| App.AsWrittenSubtitleFails | app.py:40-41 | an empty subtitle track with Gemini completes in the corrected worker but fails as written with the unexpected-keyword error |
| App.ApiKey | app.py:91-92 | the Gemini key when the provider is `gemini`, the DeepSeek key for any other provider, including a missing one |
| App.ConfigOf | app.py:94-100 | the configuration holds the chosen key and the form's style, target language, proxy URL and provider as given |
| App.OutputFilename | app.py:86-87 | for a hex id without dots or slashes, `splitext` of the output file name gives back the upload's extension, and its root is the upload's root followed by `_translated_` and the hex tag |
| App.HexTag | app.py:87 | the first six characters of the hex id, or all of a shorter one |
| App.OutputHasNoSlash | app.py:86-88 | the output file name, and its PDF variant, hold no slash |
| App.PdfDownloadPath | app.py:48-50 | a PDF is written in the download folder as the output's root followed by `_translated.docx` |
| App.DownloadNames | app.py:56 | the download name is the output file name, or the PDF's `_translated.docx` name |
| App.CompletedDownloadUrl | app.py:52-56 | a completed task's download URL names the file the handler wrote |
| App.DispatchOnUploadExtension | app.py:43 | dispatch on the saved upload path agrees with dispatch on the file name |
| App.WorkerLifecycle | app.py:25-61 | a task's writes are queued, then processing per report, then exactly one terminal status, all for that task |
| App.InvalidProviderFails | app.py:58-61 | with an unknown provider the task ends in error with the invalid-provider message, all else unchanged |
| App.UnhandledTypeCompletes | app.py:40-56 | a known provider with no matching handler completes at once, with the output path's download URL |
| App.DispatchedProgress | app.py:40-50 | every handler's reports lie in 1..100 and never decrease |
| App.WorkerProgressInRange | app.py:25-61 | a task's progress stays within 0..100 through the worker |
| App.Registry.constructor | app.py:23 | the registry starts empty |
| App.Registry.Create | app.py:106 | the task is queued, at 0, with the waiting message and no download URL; other tasks unchanged |
| App.Registry.UpdateTaskProgress | app.py:25-29 | progress, message and status of the task are replaced; nothing else changes |
| App.Registry.MarkCompleted | app.py:52-56 | the task is completed, at 100, with the completion message and the download URL of the output's base name |
| App.Registry.MarkError | app.py:58-61 | the task is in error with the exception's message; its progress and download URL are kept |
| App.Registry.ApplyReports | app.py:34 | each report goes through `update_task_progress`, in order: the task ends as `Applied` describes, with one processing write per report |
| App.Registry.RunHandler | app.py:36-50 | the dispatched handler runs and yields exactly the run `WorkerRun` describes |
| App.Registry.Finish | app.py:52-61 | the task is settled from the run, with the run's writes |
| App.Registry.TranslationWorker | app.py:31-61 | the task ends as `Settled` from the worker's run, after one processing write per report and one terminal write |
| App.Registry.HandleTranslationRequest | app.py:70-115 | a missing or unnamed file gives 400; a missing key for the provider gives 400 `API key for <provider> is missing.` and no task; otherwise a queued task, 200 with its id, and a job on the upload path and download path |

## Findings

| source | as written | input that shows it | evidently intended | confidence | as-written member | corrected member |
|---|---|---|---|---|---|---|
| app.py:40-50 | every handler call unpacks the whole translator configuration. That includes `ai_provider`, which none of the handlers takes (modules/doc_handler.py:38, 67, 85 and modules/sub_handler.py:6). So the call raises `TypeError` before the handler runs, and the task ends in error | a subtitle upload with provider `gemini` and a key; an empty track is the simplest | the handler runs with the other settings, and the task completes with its translation | high, not executed | App.WorkerRunAsWritten / App.AsWrittenSubtitleFails | App.WorkerRun / App.Registry.TranslationWorker |

## Left out

- Flask routing is not modelled. That covers the index page, the download route and the server-sent-events progress stream. The stream loop (app.py:117-129) uses `time` without importing it, and it only reads the registry.
- Threading is not modelled. The worker is one sequential run, and concurrent readers of `tasks` are not modelled.
- File I/O is replaced by oracle values: the loaders of each format, the save of the result (`saveError`) and the pages of a PDF. Saving the upload, which happens before the key check, is not modelled.
- Three library calls are parameters of the request handler:
  - `secure_filename` is the `secure` parameter;
  - `uuid4().hex` is the `hex` parameter;
  - `uuid4()` is the `taskId` parameter.
- `genai` and `requests` are the network oracle. It is indexed by the call number and the request (text, style, target language). The rendered prompt, the API key, the proxy and the model name do not influence it.
- `langdetect` is the `detect` parameter, a fixed function of the text, and `os.environ` is a map. The real `detect` is not deterministic: `DetectorFactory.seed` is never set, so two calls on the same text can disagree. `Prompts.DetectionUsesPrefix` therefore holds for the modelled `detect` only.
- Paths.PathJoin: covers `os.path.join` only for a non-empty folder without a trailing slash, which is what the two folder constants `uploads` and `downloads` are. An empty folder or one ending in a slash is excluded by its precondition.
- `print` is left out. Sleeps are recorded in milliseconds and are not taken.
- The docx model covers only body paragraphs. Runs are opaque apart from their text. Tables, headers and images are not modelled.
- Subtitle formats are not parsed. A track is a sequence of events, and only the text is read or written.
- `style` and `target_lang` are assumed present in the form, because the front end always sends them. A missing one would be `None` in the source.
- DeepSeek's `content` is assumed to be a string.
- Progress.CeilPercent: computes the exact ceiling of `k*100/n`. The source divides in floating point before `math.ceil`, which can come out one higher (7/100*100 is 7.000000000000001, giving 8).
- Text.Lower: folds ASCII letters only. Python folds every cased character. The results are only compared with `fa`, `ar`, `he`, `ur`, `.docx`, `.txt` and `.pdf`. The only non-ASCII characters that fold to ASCII letters fold to `k` or `i`, and none of those strings contains either letter, so the comparisons agree.
- AiHandler.Translator: the function a handler is given omits the proxy environment changes made on each call. `TranslateGemini` and `TranslateDeepSeek` state those changes.
