/**
 * The subtitle handler, `translate_subtitle`: every event of a subtitle track whose
 * text is not blank gets the translation of its text; nothing else of the track
 * changes. Parsing and writing subtitle files are inputs of the model.
 */
module SubHandler {
  import opened Common
  import opened Text
  import opened Progress
  import opened Units

  /** A subtitle event: its timing (milliseconds), its presentation fields and its text. */
  datatype Event = Event(start: int, end: int, layer: int, style: string, name: string,
                         effect: string, isComment: bool, text: string)

  /**
   * `pysubs2.load` with UTF-8, falling back to Latin-1 on any failure; the two
   * decodes of the file are inputs. A Latin-1 failure is the one reported.
   */
  function LoadSubtitles(utf8: Result<seq<Event>, string>, latin1: Result<seq<Event>, string>): (r: Result<seq<Event>, string>)
    ensures utf8.Success? ==> r == utf8
    ensures utf8.Failure? ==> r == latin1
    ensures r.Success? <==> utf8.Success? || latin1.Success?
  {
    if utf8.Success? then utf8 else latin1
  }

  /** `line.text` */
  function EventText(e: Event): string {
    e.text
  }

  /** `line.text = translated_text`: the only field the handler assigns. */
  function Retext(e: Event, t: string): Event {
    e.(text := t)
  }

  /** `translate_subtitle` from the decodes of the file to the reports made and the track saved. */
  function SubtitleTranslation(utf8: Result<seq<Event>, string>, latin1: Result<seq<Event>, string>,
                               saveError: Option<string>, tr: Translate): Handled<seq<Event>>
  {
    match LoadSubtitles(utf8, latin1)
    case Failure(e) => Handled([], Failure(e))
    case Success(evs) =>
      var texts := UnitTexts(evs, EventText);
      var h := Halt(true, texts, tr);
      var reports := Reports("line", h, |evs|);
      if h < |evs| then Handled(reports, Failure(tr(CallIndex(true, texts, h), texts[h]).error))
      else if saveError.Some? then Handled(reports, Failure(saveError.value))
      else Handled(reports, Success(Rewrite(evs, EventText, Retext, tr, |evs|)))
  }

  /** `translate_subtitle`: load with the encoding fallback, the event loop, save. */
  method TranslateSubtitle(utf8: Result<seq<Event>, string>, latin1: Result<seq<Event>, string>,
                           saveError: Option<string>, tr: Translate) returns (out: Handled<seq<Event>>)
    ensures out == SubtitleTranslation(utf8, latin1, saveError, tr)
  {
    var loaded := utf8;
    if loaded.Failure? {
      loaded := latin1;
    }
    if loaded.Failure? {
      return Handled([], Failure(loaded.error));
    }
    var evs := loaded.value;
    var subs := new Event[|evs|](i requires 0 <= i < |evs| => evs[i]);
    assert subs[..] == evs;
    var sent, reports, failure := RewriteUnits(subs, "line", EventText, Retext, tr);
    if failure.Some? {
      return Handled(reports, Failure(failure.value));
    }
    if saveError.Some? {
      return Handled(reports, Failure(saveError.value));
    }
    return Handled(reports, Success(subs[..]));
  }

  // -------------------------------------------------------------------- lemmas

  /**
   * The track saved when every call answers: the same events in the same order, a
   * blank event untouched, every other one with only its text replaced by the
   * translation its call returned; the reports end at 100.
   */
  lemma SubtitleSaved(evs: seq<Event>, utf8: Result<seq<Event>, string>, latin1: Result<seq<Event>, string>,
                       tr: Translate, i: nat)
    requires LoadSubtitles(utf8, latin1) == Success(evs)
    requires SubtitleTranslation(utf8, latin1, None, tr).result.Success?
    requires i < |evs|
    ensures var out := SubtitleTranslation(utf8, latin1, None, tr);
      var saved := out.result.value;
      && |saved| == |evs|
      && |out.reports| == |evs|
      && out.reports[|evs| - 1].progress == 100
      && (IsBlank(evs[i].text) ==> saved[i] == evs[i])
      && (!IsBlank(evs[i].text) ==>
            var reply := tr(CallIndex(true, UnitTexts(evs, EventText), i), evs[i].text);
            reply.Done? && saved[i] == evs[i].(text := reply.text))
  {
    var texts := UnitTexts(evs, EventText);
    var h := HaltFrom(true, texts, tr, 0);
    assert h == |evs|;
    BeforeHalt(true, texts, tr, i);
    RewriteAll(evs, EventText, Retext, tr, i);
    ReportsTrace("line", |evs|, |evs|);
  }

  /** Whatever the outcome, the reports lie in 1..100 and never decrease, and there is at most one per event. */
  lemma SubtitleReports(utf8: Result<seq<Event>, string>, latin1: Result<seq<Event>, string>,
                        saveError: Option<string>, tr: Translate)
    ensures var out := SubtitleTranslation(utf8, latin1, saveError, tr);
      && (LoadSubtitles(utf8, latin1).Success? ==> |out.reports| <= |LoadSubtitles(utf8, latin1).value|)
      && (forall j :: 0 <= j < |out.reports| ==> 1 <= out.reports[j].progress <= 100)
      && (forall i, j :: 0 <= i <= j < |out.reports| ==> out.reports[i].progress <= out.reports[j].progress)
  {
    match LoadSubtitles(utf8, latin1)
    case Failure(_) =>
    case Success(evs) =>
      ReportsTrace("line", Halt(true, UnitTexts(evs, EventText), tr), |evs|);
  }

  /** An empty track makes no call and no report and is saved as it was. */
  lemma EmptyTrack(utf8: Result<seq<Event>, string>, latin1: Result<seq<Event>, string>, tr: Translate)
    requires LoadSubtitles(utf8, latin1) == Success([])
    ensures SubtitleTranslation(utf8, latin1, None, tr) == Handled([], Success([]))
  {
    assert HaltFrom(true, UnitTexts([], EventText), tr, 0) == 0;
  }
}
