/**
 * The web application: the in-memory `tasks` registry, the background
 * `translation_worker` and the upload handler `handle_translation_request`.
 * The worker is modelled as one sequential run; the thread that runs it and
 * the readers of the registry are not part of this model.
 */
module App {
  import opened Common
  import opened Text
  import opened Paths
  import opened Units
  import opened Retries
  import opened AiHandler
  import DocHandler
  import SubHandler
  import Chunker

  // ------------------------------------------------------------------ tasks

  datatype Status = Queued | Processing | Completed | Error

  /** One entry of `tasks`: status, progress, message and, once completed, the download URL. */
  datatype Task = Task(status: Status, progress: int, message: string, downloadUrl: Option<string>)

  /** A write to the registry: the task written and the status it was given. */
  datatype Write = Write(id: string, status: Status)

  const QueuedMessage: string := "در صف انتظار..."
  const CompletedMessage: string := "ترجمه کامل شد."
  const UploadFolder: string := "uploads"
  const DownloadFolder: string := "downloads"

  predicate Terminal(s: Status) {
    s == Completed || s == Error
  }

  /** The task as `update_task_progress` leaves it after one report. */
  function Progressed(t: Task, report: Report, status: Status): Task {
    t.(status := status, progress := report.progress, message := report.message)
  }

  /** The task after `update_task_progress` was called once per report, in order: the last report wins. */
  function Applied(t: Task, reports: seq<Report>): (r: Task)
    ensures reports == [] ==> r == t
    ensures reports != [] ==>
      r == t.(status := Processing, progress := reports[|reports| - 1].progress,
              message := reports[|reports| - 1].message)
    decreases |reports|
  {
    if reports == [] then t
    else Progressed(Applied(t, reports[..|reports| - 1]), reports[|reports| - 1], Processing)
  }

  /**
   * The task at the end of a worker run that made `run.reports` and ended with
   * `run.result`: the final output path, or the message of the exception.
   */
  function Settled(t: Task, run: Handled<string>): (r: Task)
    ensures Terminal(r.status) && (r.status == Completed <==> run.result.Success?)
    ensures run.result.Success? ==>
      r == Task(Completed, 100, CompletedMessage, Some("/downloads/" + Basename(run.result.value)))
    ensures run.result.Failure? ==>
      && r.message == run.result.error
      && r.downloadUrl == t.downloadUrl
      && r.progress == (if run.reports == [] then t.progress else run.reports[|run.reports| - 1].progress)
  {
    var u := Applied(t, run.reports);
    match run.result
    case Success(path) =>
      u.(status := Completed, progress := 100, message := CompletedMessage,
         downloadUrl := Some("/downloads/" + Basename(path)))
    case Failure(e) => u.(status := Error, message := e)
  }

  /** The writes of one worker run: one `processing` write per report, then the terminal write. */
  function WorkerWrites(id: string, run: Handled<string>): (ws: seq<Write>)
    ensures |ws| == |run.reports| + 1
  {
    seq(|run.reports|, _ => Write(id, Processing))
      + [Write(id, if run.result.Success? then Completed else Error)]
  }

  function Statuses(ws: seq<Write>): (ss: seq<Status>)
    ensures |ss| == |ws| && forall i :: 0 <= i < |ws| ==> ss[i] == ws[i].status
  {
    seq(|ws|, i requires 0 <= i < |ws| => ws[i].status)
  }

  /** `queued`, then any number of `processing` writes, then one terminal write, which is the last. */
  predicate Lifecycle(ss: seq<Status>) {
    && |ss| >= 2
    && ss[0] == Queued
    && (forall i :: 0 < i < |ss| - 1 ==> ss[i] == Processing)
    && Terminal(ss[|ss| - 1])
  }

  /** Reported percentages lie in 1..100 and never decrease. */
  predicate ProgressTrace(reports: seq<Report>) {
    && (forall j :: 0 <= j < |reports| ==> 1 <= reports[j].progress <= 100)
    && (forall i, j :: 0 <= i <= j < |reports| ==> reports[i].progress <= reports[j].progress)
  }

  // --------------------------------------------------------------- the worker

  /** What the loaders and the saver of the uploaded file yield, given as oracles. */
  datatype Inputs = Inputs(subtitleUtf8: Result<seq<SubHandler.Event>, string>,
                           subtitleLatin1: Result<seq<SubHandler.Event>, string>,
                           docx: Result<seq<DocHandler.Paragraph>, string>,
                           txt: Result<string, string>,
                           pdf: Result<seq<string>, string>,
                           saveError: Option<string>)

  /** The translator settings the request handler hands to the worker. */
  datatype Config = Config(apiKey: Option<string>, style: string, targetLang: string,
                           proxyUrl: Option<string>, provider: Option<string>)

  /** The format handlers. */
  datatype Handler = Subtitle | Docx | Txt | Pdf

  /** The handler's Python name. */
  function HandlerName(h: Handler): string {
    match h
    case Subtitle => "translate_subtitle"
    case Docx => "translate_docx"
    case Txt => "translate_txt"
    case Pdf => "translate_pdf"
  }

  /**
   * The handler `translation_worker` dispatches to: subtitles by file type, documents
   * by the lower-cased extension of the uploaded file; nothing for anything else.
   */
  function HandlerFor(fileType: Option<string>, filepath: string): (r: Option<Handler>)
    ensures r == Some(Subtitle) <==> fileType == Some("subtitle")
    ensures r.Some? && r.value != Subtitle <==>
      fileType == Some("document") && Lower(SplitExt(filepath).1) in {".docx", ".txt", ".pdf"}
    ensures r == Some(Pdf) ==> Lower(SplitExt(filepath).1) == ".pdf"
  {
    if fileType == Some("subtitle") then Some(Subtitle)
    else if fileType == Some("document") then
      var ext := Lower(SplitExt(filepath).1);
      if ext == ".docx" then Some(Docx)
      else if ext == ".txt" then Some(Txt)
      else if ext == ".pdf" then Some(Pdf)
      else None
    else None
  }

  /** A handler's outcome with its artifact replaced by the path it was saved under. */
  function SavedAt<T>(h: Handled<T>, path: string): (r: Handled<string>)
    ensures r.reports == h.reports && r.result.Success? == h.result.Success?
    ensures r.result.Failure? ==> r.result.error == h.result.error
  {
    Handled(h.reports, if h.result.Success? then Success(path) else Failure(h.result.error))
  }

  /** The dispatched handler's reports and outcome; only `translate_pdf` changes the output path. */
  function Dispatched(fileType: Option<string>, filepath: string, outputPath: string, inputs: Inputs,
                      targetLang: string, tr: Translate): (r: Handled<string>)
    ensures HandlerFor(fileType, filepath).None? ==> r == Handled([], Success(outputPath))
    ensures r.result.Success? && HandlerFor(fileType, filepath) != Some(Pdf) ==> r.result.value == outputPath
    ensures r.result.Success? && HandlerFor(fileType, filepath) == Some(Pdf) ==>
      r.result.value == DocHandler.PdfOutputPath(outputPath)
  {
    match HandlerFor(fileType, filepath)
    case None => Handled([], Success(outputPath))
    case Some(Subtitle) =>
      SavedAt(SubHandler.SubtitleTranslation(inputs.subtitleUtf8, inputs.subtitleLatin1, inputs.saveError, tr),
              outputPath)
    case Some(Docx) => SavedAt(DocHandler.DocxTranslation(inputs.docx, inputs.saveError, targetLang, tr), outputPath)
    case Some(Txt) => SavedAt(DocHandler.TxtTranslation(inputs.txt, inputs.saveError, tr), outputPath)
    case Some(Pdf) =>
      var h := DocHandler.PdfTranslation(inputs.pdf, outputPath, inputs.saveError, targetLang, tr);
      SavedAt(h, if h.result.Success? then h.result.value.0 else outputPath)
  }

  /** `get_translator_func(provider)`, given the remote model, as the translate function a handler receives. */
  function SelectTranslator(config: Config, net: Network): (r: Result<Translate, string>)
    ensures r.Success? <==> config.provider == Some("gemini") || config.provider == Some("deepseek")
    ensures r.Failure? ==> r.error == InvalidProvider
  {
    match config.provider
    case None => Failure(InvalidProvider)
    case Some(name) =>
      match GetTranslatorFunc(name)
      case Failure(e) => Failure(e)
      case Success(p) => Success(Translator(p, config.style, config.targetLang, net))
  }

  /** A worker run: the provider lookup, then the dispatched handler, as reports and outcome. */
  function WorkerRun(config: Config, filepath: string, outputPath: string, fileType: Option<string>,
                     inputs: Inputs, net: Network): (r: Handled<string>)
    ensures SelectTranslator(config, net).Failure? ==> r == Handled([], Failure(InvalidProvider))
  {
    match SelectTranslator(config, net)
    case Failure(e) => Handled([], Failure(e))
    case Success(tr) => Dispatched(fileType, filepath, outputPath, inputs, config.targetLang, tr)
  }

  // ------------------------------------------------- the handler call as written

  /**
   * The `TypeError` a handler call raises as written: the worker passes the whole
   * settings dict as keyword arguments, `ai_provider` included, and no handler
   * has a parameter of that name.
   */
  function UnexpectedKeyword(h: Handler): string {
    HandlerName(h) + "() got an" + " unexpected keyword" + " argument" + " 'ai_provider'"
  }

  /**
   * `translation_worker` as written: the provider lookup succeeds or fails as in
   * `WorkerRun`, but a dispatched handler fails on the call itself, before it
   * loads anything or reports any progress.
   */
  function WorkerRunAsWritten(config: Config, filepath: string, outputPath: string, fileType: Option<string>,
                              net: Network): (r: Handled<string>)
    ensures r.reports == []
    ensures r.result.Success? <==> SelectTranslator(config, net).Success? && HandlerFor(fileType, filepath).None?
    ensures r.result.Success? ==> r.result.value == outputPath
  {
    match SelectTranslator(config, net)
    case Failure(e) => Handled([], Failure(e))
    case Success(_) =>
      match HandlerFor(fileType, filepath)
      case None => Handled([], Success(outputPath))
      case Some(h) => Handled([], Failure(UnexpectedKeyword(h)))
  }

  /**
   * An empty subtitle track with a known provider: the worker as intended
   * completes, as written it ends in error with the `TypeError` message.
   */
  lemma AsWrittenSubtitleFails(config: Config, filepath: string, outputPath: string, net: Network,
                               latin1: Result<seq<SubHandler.Event>, string>,
                               docx: Result<seq<DocHandler.Paragraph>, string>,
                               txt: Result<string, string>, pdf: Result<seq<string>, string>)
    requires config.provider == Some("gemini")
    ensures WorkerRun(config, filepath, outputPath, Some("subtitle"), Inputs(Success([]), latin1, docx, txt, pdf, None), net)
      == Handled([], Success(outputPath))
    ensures WorkerRunAsWritten(config, filepath, outputPath, Some("subtitle"), net)
      == Handled([], Failure(UnexpectedKeyword(Subtitle)))
  {
    SubHandler.EmptyTrack(Success([]), latin1, SelectTranslator(config, net).value);
  }

  // ---------------------------------------------------------- the request side

  /** The form fields of an upload request. */
  datatype Form = Form(provider: Option<string>, geminiKey: Option<string>, deepseekKey: Option<string>,
                       style: string, targetLang: string, proxyUrl: Option<string>, fileType: Option<string>)

  /** A started translation: what `translation_worker` is given. */
  datatype Job = Job(taskId: string, filepath: string, outputPath: string, fileType: Option<string>, config: Config)

  datatype Body = ErrorBody(error: string) | TaskBody(taskId: string)

  /** A JSON response with its HTTP status code. */
  datatype Response = Response(code: int, body: Body)

  /** The key the request uses: Gemini's for the provider `gemini`, DeepSeek's for any other. */
  function ApiKey(form: Form): (r: Option<string>)
    ensures form.provider == Some("gemini") ==> r == form.geminiKey
    ensures form.provider != Some("gemini") ==> r == form.deepseekKey
  {
    if form.provider == Some("gemini") then form.geminiKey else form.deepseekKey
  }

  function ConfigOf(form: Form): (r: Config)
    ensures r.apiKey == ApiKey(form) && r.provider == form.provider && r.proxyUrl == form.proxyUrl
    ensures r.style == form.style && r.targetLang == form.targetLang
  {
    Config(ApiKey(form), form.style, form.targetLang, form.proxyUrl, form.provider)
  }

  /** How an optional form value is printed in an f-string. */
  function Shown(v: Option<string>): string {
    if v.Some? then v.value else "None"
  }

  /** The first six characters of the random hex id (all of it when shorter). */
  function HexTag(hex: string): (r: string)
    ensures |r| == (if |hex| < 6 then |hex| else 6) && r == hex[..|r|]
  {
    if |hex| <= 6 then hex else hex[..6]
  }

  /** `f"{name}_translated_{hex[:6]}{ext}"` for `name, ext = splitext(filename)`. */
  function OutputFilename(filename: string, hex: string): (r: string)
    ensures r == SplitExt(filename).0 + ("_translated_" + HexTag(hex)) + SplitExt(filename).1
    ensures '.' !in hex && '/' !in hex ==>
      SplitExt(r) == (SplitExt(filename).0 + "_translated_" + HexTag(hex), SplitExt(filename).1)
  {
    TaggedKeepsExtension(filename, hex);
    var (name, ext) := SplitExt(filename);
    name + "_translated_" + HexTag(hex) + ext
  }

  /** The tag inserted before the upload's extension leaves that extension in place. */
  lemma TaggedKeepsExtension(filename: string, hex: string)
    ensures '.' !in hex && '/' !in hex ==>
      SplitExt(SplitExt(filename).0 + ("_translated_" + HexTag(hex)) + SplitExt(filename).1)
      == (SplitExt(filename).0 + "_translated_" + HexTag(hex), SplitExt(filename).1)
  {
    if '.' !in hex && '/' !in hex {
      var mid := "_translated_" + HexTag(hex);
      TagIsPlain(hex);
      SplitExtInsert(filename, mid);
      Reassociate(SplitExt(filename).0, "_translated_", HexTag(hex));
    }
  }

  /** The tag holds no dot and no slash when the hex id holds none. */
  lemma TagIsPlain(hex: string)
    requires '.' !in hex && '/' !in hex
    ensures '.' !in "_translated_" + HexTag(hex) && '/' !in "_translated_" + HexTag(hex)
  {
    var tag := HexTag(hex);
    assert forall c :: c in tag ==> c in hex;
    assert forall c :: c in "_translated_" + tag ==> c in "_translated_" || c in tag;
    assert '.' !in "_translated_" && '/' !in "_translated_";
  }

  // ----------------------------------------------------------------- registry

  /** The module-level `tasks` dict, and a log of the writes made to it. */
  class Registry {
    var tasks: map<string, Task>
    ghost var writes: seq<Write>

    constructor()
      ensures tasks == map[] && writes == []
    {
      tasks := map[];
      writes := [];
    }

    /** A new task, queued at 0 percent (an entry under the same id is replaced). */
    method Create(id: string)
      modifies this
      ensures tasks == old(tasks)[id := Task(Queued, 0, QueuedMessage, None)]
      ensures writes == old(writes) + [Write(id, Queued)]
    {
      tasks := tasks[id := Task(Queued, 0, QueuedMessage, None)];
      writes := writes + [Write(id, Queued)];
    }

    /** `update_task_progress`: overwrite progress, message and status of that task only. */
    method UpdateTaskProgress(id: string, progress: int, message: string, status: Status := Processing)
      requires id in tasks
      modifies this
      ensures tasks == old(tasks)[id := old(tasks)[id].(progress := progress, message := message, status := status)]
      ensures writes == old(writes) + [Write(id, status)]
    {
      tasks := tasks[id := tasks[id].(progress := progress, message := message, status := status)];
      writes := writes + [Write(id, status)];
    }

    /** The success branch of the worker: completed, 100 percent, the download URL of the output file. */
    method MarkCompleted(id: string, finalOutputPath: string)
      requires id in tasks
      modifies this
      ensures tasks == old(tasks)[id := Task(Completed, 100, CompletedMessage,
                                              Some("/downloads/" + Basename(finalOutputPath)))]
      ensures writes == old(writes) + [Write(id, Completed)]
    {
      tasks := tasks[id := tasks[id].(status := Completed, progress := 100, message := CompletedMessage,
                                      downloadUrl := Some("/downloads/" + Basename(finalOutputPath)))];
      writes := writes + [Write(id, Completed)];
    }

    /** The exception branch of the worker: status error and the exception's message; progress is kept. */
    method MarkError(id: string, message: string)
      requires id in tasks
      modifies this
      ensures tasks == old(tasks)[id := old(tasks)[id].(status := Error, message := message)]
      ensures writes == old(writes) + [Write(id, Error)]
    {
      tasks := tasks[id := tasks[id].(status := Error, message := message)];
      writes := writes + [Write(id, Error)];
    }

    /** The handler's `update_progress` callback, `update_task_progress(task_id, p, m)`, once per report in order. */
    method ApplyReports(id: string, reports: seq<Report>)
      requires id in tasks
      modifies this
      ensures tasks == old(tasks)[id := Applied(old(tasks)[id], reports)]
      ensures writes == old(writes) + seq(|reports|, _ => Write(id, Processing))
    {
      var t0 := tasks[id];
      var i := 0;
      while i < |reports|
        invariant i <= |reports|
        invariant tasks == old(tasks)[id := Applied(t0, reports[..i])]
        invariant writes == old(writes) + seq(i, _ => Write(id, Processing))
      {
        assert reports[..i + 1][..i] == reports[..i];
        UpdateTaskProgress(id, reports[i].progress, reports[i].message);
        i := i + 1;
      }
      assert reports[..i] == reports;
    }

    /**
     * `translation_worker`: select the translate function, run the dispatched
     * handler, whose progress callback updates the task after every unit, and
     * end with one terminal write.
     */
    method TranslationWorker(id: string, filepath: string, outputPath: string, fileType: Option<string>,
                             config: Config, inputs: Inputs, net: Network)
      requires id in tasks
      modifies this
      ensures var run := WorkerRun(config, filepath, outputPath, fileType, inputs, net);
        && tasks == old(tasks)[id := Settled(old(tasks)[id], run)]
        && writes == old(writes) + WorkerWrites(id, run)
    {
      var run := RunHandler(filepath, outputPath, fileType, config, inputs, net);
      Finish(id, run);
    }

    /** The registry writes of a worker run: a `processing` update per report, then the terminal write. */
    method Finish(id: string, run: Handled<string>)
      requires id in tasks
      modifies this
      ensures tasks == old(tasks)[id := Settled(old(tasks)[id], run)]
      ensures writes == old(writes) + WorkerWrites(id, run)
    {
      ApplyReports(id, run.reports);
      if run.result.Success? {
        MarkCompleted(id, run.result.value);
      } else {
        MarkError(id, run.result.error);
      }
    }

    /** The part of `translation_worker` before its registry writes: select the translate function and run the handler. */
    static method RunHandler(filepath: string, outputPath: string, fileType: Option<string>,
                             config: Config, inputs: Inputs, net: Network) returns (run: Handled<string>)
      ensures run == WorkerRun(config, filepath, outputPath, fileType, inputs, net)
    {
      var selected := SelectTranslator(config, net);
      if selected.Failure? {
        return Handled([], Failure(selected.error));
      }
      var tr := selected.value;
      var handler := HandlerFor(fileType, filepath);
      if handler == Some(Subtitle) {
        var h := SubHandler.TranslateSubtitle(inputs.subtitleUtf8, inputs.subtitleLatin1, inputs.saveError, tr);
        run := SavedAt(h, outputPath);
      } else if handler == Some(Docx) {
        var h := DocHandler.TranslateDocx(inputs.docx, inputs.saveError, config.targetLang, tr);
        run := SavedAt(h, outputPath);
      } else if handler == Some(Txt) {
        var h := DocHandler.TranslateTxt(inputs.txt, inputs.saveError, tr);
        run := SavedAt(h, outputPath);
      } else if handler == Some(Pdf) {
        var h := DocHandler.TranslatePdf(inputs.pdf, outputPath, inputs.saveError, config.targetLang, tr);
        run := SavedAt(h, if h.result.Success? then h.result.value.0 else outputPath);
      } else {
        run := Handled([], Success(outputPath));
      }
    }

    /**
     * `handle_translation_request`: check the file part and the API key, then
     * register a queued task and hand the job to the worker. `secure` stands for
     * `secure_filename`, `hex` and `taskId` for the two random UUIDs.
     */
    method HandleTranslationRequest(file: Option<string>, form: Form, secure: string -> string,
                                    hex: string, taskId: string)
      returns (response: Response, job: Option<Job>)
      modifies this
      ensures file.None? ==> response == Response(400, ErrorBody("No file part"))
      ensures file == Some("") ==> response == Response(400, ErrorBody("No selected file"))
      ensures job.Some? <==> file.Some? && file.value != "" && Truthy(ApiKey(form))
      ensures file.Some? && file.value != "" && !Truthy(ApiKey(form)) ==>
        response == Response(400, ErrorBody("API key for " + Shown(form.provider) + " is missing."))
      ensures job.None? ==> response.code == 400 && tasks == old(tasks) && writes == old(writes)
      ensures job.Some? ==>
        && response == Response(200, TaskBody(taskId))
        && tasks == old(tasks)[taskId := Task(Queued, 0, QueuedMessage, None)]
        && writes == old(writes) + [Write(taskId, Queued)]
        && job.value == Job(taskId, PathJoin(UploadFolder, secure(file.value)),
                            PathJoin(DownloadFolder, OutputFilename(secure(file.value), hex)),
                            form.fileType, ConfigOf(form))
    {
      if file.None? {
        return Response(400, ErrorBody("No file part")), None;
      }
      if file.value == "" {
        return Response(400, ErrorBody("No selected file")), None;
      }
      var filename := secure(file.value);
      var filepath := PathJoin(UploadFolder, filename);
      var outputPath := PathJoin(DownloadFolder, OutputFilename(filename, hex));
      var config := ConfigOf(form);
      if !Truthy(config.apiKey) {
        return Response(400, ErrorBody("API key for " + Shown(form.provider) + " is missing.")), None;
      }
      Create(taskId);
      return Response(200, TaskBody(taskId)), Some(Job(taskId, filepath, outputPath, form.fileType, config));
    }
  }

  // ------------------------------------------------------------------- lemmas

  /** A task that was queued and then run by the worker goes queued, processing*, then one terminal status. */
  lemma WorkerLifecycle(id: string, run: Handled<string>)
    ensures Lifecycle(Statuses([Write(id, Queued)] + WorkerWrites(id, run)))
    ensures forall w :: w in WorkerWrites(id, run) ==> w.id == id
  {
    var ws := [Write(id, Queued)] + WorkerWrites(id, run);
    var ss := Statuses(ws);
    forall i | 0 < i < |ss| - 1 ensures ss[i] == Processing {
      assert ws[i] == WorkerWrites(id, run)[i - 1];
    }
  }

  /** An unknown provider ends the task in error with `get_translator_func`'s message, before any handler runs. */
  lemma InvalidProviderFails(t: Task, config: Config, filepath: string, outputPath: string,
                             fileType: Option<string>, inputs: Inputs, net: Network)
    requires config.provider != Some("gemini") && config.provider != Some("deepseek")
    ensures var r := Settled(t, WorkerRun(config, filepath, outputPath, fileType, inputs, net));
      r == t.(status := Error, message := InvalidProvider)
  {
  }

  /** A file type or extension no handler takes still ends `completed`, at the unchanged output path. */
  lemma UnhandledTypeCompletes(t: Task, config: Config, filepath: string, outputPath: string,
                               fileType: Option<string>, inputs: Inputs, net: Network)
    requires config.provider == Some("gemini") || config.provider == Some("deepseek")
    requires HandlerFor(fileType, filepath).None?
    ensures Settled(t, WorkerRun(config, filepath, outputPath, fileType, inputs, net))
      == Task(Completed, 100, CompletedMessage, Some("/downloads/" + Basename(outputPath)))
  {
  }

  /** Every handler reports percentages in 1..100 that never decrease. */
  lemma DispatchedProgress(fileType: Option<string>, filepath: string, outputPath: string, inputs: Inputs,
                           targetLang: string, tr: Translate)
    ensures ProgressTrace(Dispatched(fileType, filepath, outputPath, inputs, targetLang, tr).reports)
  {
    var handler := HandlerFor(fileType, filepath);
    if handler == Some(Subtitle) {
      SubHandler.SubtitleReports(inputs.subtitleUtf8, inputs.subtitleLatin1, inputs.saveError, tr);
    } else if handler == Some(Docx) {
      DocxProgress(inputs, targetLang, tr);
    } else if handler == Some(Txt) {
      TxtProgress(inputs, tr);
    } else if handler == Some(Pdf) {
      PdfProgress(inputs, outputPath, targetLang, tr);
    }
  }

  lemma DocxProgress(inputs: Inputs, targetLang: string, tr: Translate)
    ensures ProgressTrace(DocHandler.DocxTranslation(inputs.docx, inputs.saveError, targetLang, tr).reports)
  {
    if inputs.docx.Success? {
      var ps := inputs.docx.value;
      ReportsTrace("paragraph", Halt(true, UnitTexts(ps, DocHandler.ParagraphText), tr), |ps|);
    }
  }

  lemma TxtProgress(inputs: Inputs, tr: Translate)
    ensures ProgressTrace(DocHandler.TxtTranslation(inputs.txt, inputs.saveError, tr).reports)
  {
    if inputs.txt.Success? {
      var chunks := Chunker.Chunks(inputs.txt.value, DocHandler.MaxChunkSize);
      ReportsTrace("chunk", Halt(false, chunks, tr), |chunks|);
    }
  }

  lemma PdfProgress(inputs: Inputs, outputPath: string, targetLang: string, tr: Translate)
    ensures ProgressTrace(DocHandler.PdfTranslation(inputs.pdf, outputPath, inputs.saveError, targetLang, tr).reports)
  {
    if inputs.pdf.Success? {
      var chunks := Chunker.Chunks(JoinLines(inputs.pdf.value + [""]), DocHandler.MaxChunkSize);
      ReportsTrace("chunk", Halt(false, chunks, tr), |chunks|);
    }
  }

  /** Whatever the worker does, a task that starts within 0..100 percent ends within 0..100 percent. */
  lemma WorkerProgressInRange(t: Task, config: Config, filepath: string, outputPath: string,
                              fileType: Option<string>, inputs: Inputs, net: Network)
    requires 0 <= t.progress <= 100
    ensures 0 <= Settled(t, WorkerRun(config, filepath, outputPath, fileType, inputs, net)).progress <= 100
  {
    var selected := SelectTranslator(config, net);
    if selected.Success? {
      DispatchedProgress(fileType, filepath, outputPath, inputs, config.targetLang, selected.value);
    }
  }

  /** A name without slashes stays without slashes when the output file name is built from it. */
  lemma OutputHasNoSlash(filename: string, hex: string)
    requires '/' !in filename && '/' !in hex
    ensures '/' !in OutputFilename(filename, hex)
    ensures '/' !in SplitExt(filename).0 + "_translated_" + HexTag(hex) + "_translated.docx"
  {
    assert forall c :: c in HexTag(hex) ==> c in hex;
    assert SplitExt(filename).0 + SplitExt(filename).1 == filename;
    assert forall c :: c in SplitExt(filename).0 ==> c in filename;
    assert forall c :: c in SplitExt(filename).1 ==> c in filename;
    assert '/' !in "_translated_" && '/' !in "_translated.docx";
  }

  /** The PDF output under `downloads` is named after the output file's stem. */
  lemma PdfDownloadPath(filename: string, hex: string)
    requires '/' !in filename && '.' !in hex && '/' !in hex
    ensures DocHandler.PdfOutputPath(PathJoin(DownloadFolder, OutputFilename(filename, hex)))
      == DownloadFolder + "/" + (SplitExt(filename).0 + "_translated_" + HexTag(hex) + "_translated.docx")
  {
    OutputHasNoSlash(filename, hex);
    assert DownloadFolder[|DownloadFolder| - 1] == 's';
    PdfPathUnder(DownloadFolder, OutputFilename(filename, hex), SplitExt(filename).0 + "_translated_" + HexTag(hex));
  }

  /** The PDF output of a plain file name under a folder stays under that folder. */
  lemma PdfPathUnder(dir: string, out: string, root: string)
    requires dir != [] && dir[|dir| - 1] != '/' && '/' !in out && SplitExt(out).0 == root
    ensures DocHandler.PdfOutputPath(PathJoin(dir, out)) == dir + "/" + (root + "_translated.docx")
  {
    SplitExtUnder(dir, out);
    var q := dir + "/" + root;
    assert DocHandler.PdfOutputPath(PathJoin(dir, out)) == q + "_translated.docx";
    Reassociate(dir + "/", root, "_translated.docx");
  }

  lemma Reassociate(x: string, y: string, z: string)
    ensures x + y + z == x + (y + z)
  {
  }

  /** The file names under `downloads` that a completed upload's URL can carry. */
  lemma DownloadNames(filename: string, hex: string)
    requires '/' !in filename && '.' !in hex && '/' !in hex
    ensures Basename(PathJoin(DownloadFolder, OutputFilename(filename, hex))) == OutputFilename(filename, hex)
    ensures Basename(DocHandler.PdfOutputPath(PathJoin(DownloadFolder, OutputFilename(filename, hex))))
      == SplitExt(filename).0 + "_translated_" + HexTag(hex) + "_translated.docx"
  {
    var pdfName := SplitExt(filename).0 + "_translated_" + HexTag(hex) + "_translated.docx";
    OutputHasNoSlash(filename, hex);
    BasenameOfJoin(DownloadFolder, OutputFilename(filename, hex));
    PdfDownloadPath(filename, hex);
    assert pdfName[0] != '/' by {
      assert pdfName[0] in pdfName;
    }
    assert PathJoin(DownloadFolder, pdfName) == DownloadFolder + "/" + pdfName;
    BasenameOfJoin(DownloadFolder, pdfName);
  }

  /**
   * The download URL a completed upload ends with: the output file name, or for a
   * PDF that name's stem with `_translated.docx`.
   */
  lemma CompletedDownloadUrl(t: Task, filename: string, hex: string, fileType: Option<string>,
                             config: Config, inputs: Inputs, net: Network)
    requires '/' !in filename && '.' !in hex && '/' !in hex
    ensures var filepath := PathJoin(UploadFolder, filename);
      var run := WorkerRun(config, filepath, PathJoin(DownloadFolder, OutputFilename(filename, hex)),
                           fileType, inputs, net);
      run.result.Success? ==>
        Settled(t, run).downloadUrl == Some("/downloads/" +
          if HandlerFor(fileType, filepath) == Some(Pdf)
          then SplitExt(filename).0 + "_translated_" + HexTag(hex) + "_translated.docx"
          else OutputFilename(filename, hex))
  {
    DownloadNames(filename, hex);
  }

  /** The upload path keeps the file's extension, so dispatch sees the uploaded file's own extension. */
  lemma DispatchOnUploadExtension(filename: string, fileType: Option<string>)
    requires '/' !in filename
    ensures HandlerFor(fileType, PathJoin(UploadFolder, filename)) == HandlerFor(fileType, filename)
  {
    assert UploadFolder[|UploadFolder| - 1] == 's';
    SplitExtUnder(UploadFolder, filename);
    SameExtensionSameHandler(fileType, PathJoin(UploadFolder, filename), filename);
  }

  /** Dispatch reads nothing of a path but its extension. */
  lemma SameExtensionSameHandler(fileType: Option<string>, a: string, b: string)
    requires SplitExt(a).1 == SplitExt(b).1
    ensures HandlerFor(fileType, a) == HandlerFor(fileType, b)
  {
  }
}
