/**
 * What the four format handlers share: an ordered sequence of translation units
 * walked once, one `translate_func` call per unit that is not skipped, and one
 * progress report per unit.
 */
module Units {
  import opened Common
  import opened Text
  import opened Progress

  /** What one call of `translate_func` gives back: a text, or an exception that escapes it. */
  datatype Reply = Done(text: string) | Raised(error: string)

  /** The translation function seen by a handler: the reply to its k-th call for a given text. */
  type Translate = (nat, string) -> Reply

  /** What a format handler ends with: the progress reports it made, then its artifact or the exception that ended it. */
  datatype Handled<T> = Handled(reports: seq<Report>, result: Result<T, string>)

  /** One call of the `update_progress(progress, message)` callback. */
  datatype Report = Report(progress: int, message: string)

  /** Whether a unit is passed over without a call: only blank units, and only when blanks are skipped. */
  predicate Skips(skipBlank: bool, t: string) {
    skipBlank && IsBlank(t)
  }

  /** The texts handed to `translate_func` when every unit of `texts` is visited, in call order. */
  function Calls(skipBlank: bool, texts: seq<string>): (r: seq<string>)
    ensures |r| <= |texts|
    decreases |texts|
  {
    if texts == [] then []
    else
      var init := Calls(skipBlank, texts[..|texts| - 1]);
      var t := texts[|texts| - 1];
      if Skips(skipBlank, t) then init else init + [t]
  }

  /** How many calls precede the visit of unit `i`; the call made for unit `i`, if any, has this index. */
  function CallIndex(skipBlank: bool, texts: seq<string>, i: nat): nat
    requires i <= |texts|
  {
    |Calls(skipBlank, texts[..i])|
  }

  /** Unit `j` is translated and its call raises. */
  predicate Raises(skipBlank: bool, texts: seq<string>, tr: Translate, j: nat)
    requires j < |texts|
  {
    !Skips(skipBlank, texts[j]) && tr(CallIndex(skipBlank, texts, j), texts[j]).Raised?
  }

  /** The first unit at or after `i` whose call raises, or `|texts|` when none does. */
  function HaltFrom(skipBlank: bool, texts: seq<string>, tr: Translate, i: nat): (h: nat)
    requires i <= |texts|
    ensures i <= h <= |texts|
    ensures forall j :: i <= j < h ==> !Raises(skipBlank, texts, tr, j)
    ensures h < |texts| ==> Raises(skipBlank, texts, tr, h)
    decreases |texts| - i
  {
    if i == |texts| then i
    else if Raises(skipBlank, texts, tr, i) then i
    else HaltFrom(skipBlank, texts, tr, i + 1)
  }

  /** The unit at which the loop stops on an exception, or `|texts|` when it runs to the end. */
  function Halt(skipBlank: bool, texts: seq<string>, tr: Translate): nat {
    HaltFrom(skipBlank, texts, tr, 0)
  }

  /** When the loop runs to the end without skipping, every call has answered. */
  lemma HaltAllDone(texts: seq<string>, tr: Translate)
    requires Halt(false, texts, tr) == |texts|
    ensures forall i :: 0 <= i < |texts| ==> tr(i, texts[i]).Done?
  {
    CallIndexSkipNothing(texts);
    var h := HaltFrom(false, texts, tr, 0);
    forall i | 0 <= i < |texts| ensures tr(i, texts[i]).Done? {
      assert !Raises(false, texts, tr, i);
    }
  }

  /** The number of units the loop visits: up to and including the one whose call raised. */
  function Visited(skipBlank: bool, texts: seq<string>, tr: Translate): nat {
    var h := Halt(skipBlank, texts, tr);
    if h < |texts| then h + 1 else h
  }

  /** `f"Translating {noun} {k}/{n}..."` */
  function ProgressMessage(noun: string, k: nat, n: nat): (r: string)
    ensures |r| > 13 + |noun| && r[..13 + |noun|] == "Translating " + noun + " "
    ensures r[|r| - 3..] == "..."
  {
    "Translating " + noun + " " + NatToString(k) + "/" + NatToString(n) + "..."
  }

  /** The reports made after each of the first `h` of `n` units. */
  function Reports(noun: string, h: nat, n: nat): (r: seq<Report>)
    requires h <= n
    ensures |r| == h
  {
    seq(h, j requires 0 <= j < h => Report(CeilPercent(j + 1, n), ProgressMessage(noun, j + 1, n)))
  }

  // ------------------------------------------------------------------ lemmas

  /** Every text sent is a unit's text, and never one the loop passes over. */
  lemma {:induction false} CallsFromTexts(skipBlank: bool, texts: seq<string>)
    ensures forall t :: t in Calls(skipBlank, texts) ==> t in texts && !Skips(skipBlank, t)
    decreases |texts|
  {
    if texts != [] {
      var init := texts[..|texts| - 1];
      CallsFromTexts(skipBlank, init);
      assert forall t :: t in init ==> t in texts;
    }
  }

  /** A unit before the halt whose call does not raise lies before the halt too. */
  lemma HaltPast(skipBlank: bool, texts: seq<string>, tr: Translate, i: nat)
    requires i < |texts| && i <= Halt(skipBlank, texts, tr)
    requires !Raises(skipBlank, texts, tr, i)
    ensures i + 1 <= Halt(skipBlank, texts, tr)
  {
    var h := HaltFrom(skipBlank, texts, tr, 0);
  }

  /** A unit not past the halt whose call raises is the halt. */
  lemma HaltStops(skipBlank: bool, texts: seq<string>, tr: Translate, i: nat)
    requires i < |texts| && i <= Halt(skipBlank, texts, tr)
    requires Raises(skipBlank, texts, tr, i)
    ensures Halt(skipBlank, texts, tr) == i
  {
    var h := HaltFrom(skipBlank, texts, tr, 0);
  }

  /** The texts sent by a loop that stopped at unit `i`: those of the units it visited. */
  lemma SentAtHalt(skipBlank: bool, texts: seq<string>, tr: Translate, i: nat, sent: seq<string>)
    requires i <= |texts| && Halt(skipBlank, texts, tr) == i
    requires i < |texts| ==> sent == Calls(skipBlank, texts[..i + 1])
    requires i == |texts| ==> sent == Calls(skipBlank, texts[..i])
    ensures sent == Calls(skipBlank, texts[..Visited(skipBlank, texts, tr)])
  {
  }

  /** No unit before the halt raises. */
  lemma BeforeHalt(skipBlank: bool, texts: seq<string>, tr: Translate, j: nat)
    requires j < Halt(skipBlank, texts, tr)
    ensures j < |texts| && !Raises(skipBlank, texts, tr, j)
  {
    var h := HaltFrom(skipBlank, texts, tr, 0);
  }

  lemma CallsStep(skipBlank: bool, texts: seq<string>, i: nat)
    requires i < |texts|
    ensures Calls(skipBlank, texts[..i + 1])
      == Calls(skipBlank, texts[..i]) + (if Skips(skipBlank, texts[i]) then [] else [texts[i]])
  {
    assert texts[..i + 1][..i] == texts[..i];
  }

  /** Visiting more units only appends calls. */
  lemma {:induction false} CallsPrefix(skipBlank: bool, texts: seq<string>, i: nat, j: nat)
    requires i <= j <= |texts|
    ensures Calls(skipBlank, texts[..i]) <= Calls(skipBlank, texts[..j])
    decreases j - i
  {
    if i < j {
      CallsPrefix(skipBlank, texts, i, j - 1);
      CallsStep(skipBlank, texts, j - 1);
    }
  }

  /**
   * Exactly one call per unit that is not skipped, in unit order: the call numbered
   * `CallIndex(i)` carries the text of unit `i`.
   */
  lemma CallOrder(skipBlank: bool, texts: seq<string>, i: nat)
    requires i < |texts| && !Skips(skipBlank, texts[i])
    ensures CallIndex(skipBlank, texts, i) < |Calls(skipBlank, texts)|
    ensures Calls(skipBlank, texts)[CallIndex(skipBlank, texts, i)] == texts[i]
  {
    CallsStep(skipBlank, texts, i);
    CallsPrefix(skipBlank, texts, i + 1, |texts|);
    assert texts[..|texts|] == texts;
  }

  /** Units that are skipped get no call: the call indices of the units around them are consecutive. */
  lemma CallSkipped(skipBlank: bool, texts: seq<string>, i: nat)
    requires i < |texts| && Skips(skipBlank, texts[i])
    ensures CallIndex(skipBlank, texts, i + 1) == CallIndex(skipBlank, texts, i)
  {
    CallsStep(skipBlank, texts, i);
  }

  /** Without skipping, the calls are the units themselves. */
  lemma {:induction false} CallsSkipNothing(texts: seq<string>)
    ensures Calls(false, texts) == texts
    decreases |texts|
  {
    if texts != [] {
      CallsSkipNothing(texts[..|texts| - 1]);
    }
  }

  lemma CallIndexSkipNothing(texts: seq<string>)
    ensures forall j :: 0 <= j <= |texts| ==> CallIndex(false, texts, j) == j
  {
    forall j | 0 <= j <= |texts| ensures CallIndex(false, texts, j) == j {
      CallsSkipNothing(texts[..j]);
    }
  }

  /** The reported percentages lie in 1..100, never decrease, and end at 100 when all units are done. */
  lemma ReportsTrace(noun: string, h: nat, n: nat)
    requires h <= n
    ensures forall j :: 0 <= j < h ==> 1 <= Reports(noun, h, n)[j].progress <= 100
    ensures forall i, j :: 0 <= i <= j < h ==> Reports(noun, h, n)[i].progress <= Reports(noun, h, n)[j].progress
    ensures 0 < h == n ==> Reports(noun, h, n)[h - 1].progress == 100
  {
    var r := Reports(noun, h, n);
    forall j | 0 <= j < h ensures 1 <= r[j].progress <= 100 {
      PercentRange(j + 1, n);
    }
    forall i, j | 0 <= i <= j < h ensures r[i].progress <= r[j].progress {
      PercentMonotone(i + 1, j + 1, n);
    }
    if 0 < h == n {
      PercentFull(n);
    }
  }

  lemma ReportsStep(noun: string, i: nat, n: nat)
    requires i < n
    ensures Reports(noun, i + 1, n) == Reports(noun, i, n) + [Report(CeilPercent(i + 1, n), ProgressMessage(noun, i + 1, n))]
  {
  }

  // --------------------------------------------------- the txt and pdf loop

  /**
   * The chunk loop shared by `translate_txt` and `translate_pdf`: every chunk is
   * translated (blank chunks too), the results are appended in chunk order, and a
   * report follows each chunk. An exception from `translate_func` ends the loop.
   */
  method TranslateChunks(chunks: seq<string>, tr: Translate)
    returns (translated: seq<string>, sent: seq<string>, reports: seq<Report>, failure: Option<string>)
    ensures var h := Halt(false, chunks, tr);
      && |translated| == h
      && (forall i :: 0 <= i < h ==> tr(i, chunks[i]) == Done(translated[i]))
      && sent == chunks[..Visited(false, chunks, tr)]
      && reports == Reports("chunk", h, |chunks|)
      && (h < |chunks| ==> tr(h, chunks[h]).Raised?)
      && failure == (if h < |chunks| then Some(tr(h, chunks[h]).error) else None)
  {
    var n := |chunks|;
    CallIndexSkipNothing(chunks);
    translated, sent, reports, failure := [], [], [], None;
    for i := 0 to n
      invariant |translated| == i
      invariant forall j :: 0 <= j < i ==> tr(j, chunks[j]) == Done(translated[j])
      invariant forall j :: 0 <= j < i ==> !Raises(false, chunks, tr, j)
      invariant sent == chunks[..i]
      invariant reports == Reports("chunk", i, n)
    {
      var reply := tr(i, chunks[i]);
      sent := sent + [chunks[i]];
      assert chunks[..i + 1] == chunks[..i] + [chunks[i]];
      if reply.Raised? {
        failure := Some(reply.error);
        assert Raises(false, chunks, tr, i);
        assert Halt(false, chunks, tr) == i;
        return;
      }
      translated := translated + [reply.text];
      ReportsStep("chunk", i, n);
      reports := reports + [Report(CeilPercent(i + 1, n), ProgressMessage("chunk", i + 1, n))];
    }
    assert Halt(false, chunks, tr) == n;
    assert chunks[..n] == chunks;
  }

  // ------------------------------------------------ units rewritten in place

  /** The texts of a sequence of units, read with `textOf`. */
  function UnitTexts<T>(us: seq<T>, textOf: T -> string): (r: seq<string>)
    ensures |r| == |us| && forall i :: 0 <= i < |us| ==> r[i] == textOf(us[i])
  {
    seq(|us|, i requires 0 <= i < |us| => textOf(us[i]))
  }

  /**
   * A unit once the loop has visited it, `k` being the index of its call: a blank
   * unit is left alone, any other one is rewritten with the reply to its call.
   */
  function UnitAfter<T>(u: T, k: nat, textOf: T -> string, rewrite: (T, string) -> T, tr: Translate): T {
    if IsBlank(textOf(u)) then u
    else match tr(k, textOf(u))
      case Done(t) => rewrite(u, t)
      case Raised(_) => u
  }

  /** The units after the loop has visited the first `upto` of them. */
  function Rewrite<T>(us: seq<T>, textOf: T -> string, rewrite: (T, string) -> T, tr: Translate, upto: nat): (r: seq<T>)
    requires upto <= |us|
    ensures |r| == |us|
  {
    var texts := UnitTexts(us, textOf);
    seq(|us|, j requires 0 <= j < |us| =>
      if j < upto then UnitAfter(us[j], CallIndex(true, texts, j), textOf, rewrite, tr) else us[j])
  }

  /** Visiting unit `i` changes that unit alone. */
  lemma RewriteStep<T>(us: seq<T>, textOf: T -> string, rewrite: (T, string) -> T, tr: Translate, i: nat)
    requires i < |us|
    ensures Rewrite(us, textOf, rewrite, tr, i + 1)
      == Rewrite(us, textOf, rewrite, tr, i)[i := UnitAfter(us[i], CallIndex(true, UnitTexts(us, textOf), i), textOf, rewrite, tr)]
  {
  }

  /** A unit the loop has not reached yet is as loaded. */
  lemma RewriteUnvisited<T>(us: seq<T>, textOf: T -> string, rewrite: (T, string) -> T, tr: Translate, i: nat)
    requires i < |us|
    ensures Rewrite(us, textOf, rewrite, tr, i)[i] == us[i]
  {
  }

  /**
   * Once the loop has run to the end, a blank unit is kept and every other one whose
   * call did not raise is rewritten with the text that call returned.
   */
  lemma RewriteAll<T>(us: seq<T>, textOf: T -> string, rewrite: (T, string) -> T, tr: Translate, j: nat)
    requires j < |us| && !Raises(true, UnitTexts(us, textOf), tr, j)
    ensures IsBlank(textOf(us[j])) ==> Rewrite(us, textOf, rewrite, tr, |us|)[j] == us[j]
    ensures !IsBlank(textOf(us[j])) ==>
      var reply := tr(CallIndex(true, UnitTexts(us, textOf), j), textOf(us[j]));
      reply.Done? && Rewrite(us, textOf, rewrite, tr, |us|)[j] == rewrite(us[j], reply.text)
  {
  }

  /** One visit of the loop on a unit's value: whether its text is sent, the error its call raised, else the unit after. */
  method VisitUnit<T>(u: T, k: nat, textOf: T -> string, rewrite: (T, string) -> T, tr: Translate)
    returns (after: T, called: bool, error: Option<string>)
    ensures called <==> !IsBlank(textOf(u))
    ensures error == (if called && tr(k, textOf(u)).Raised? then Some(tr(k, textOf(u)).error) else None)
    ensures error.None? ==> after == UnitAfter(u, k, textOf, rewrite, tr)
  {
    var text := textOf(u);
    after, called, error := u, false, None;
    if Strip(text) != "" {
      called := true;
      var reply := tr(k, text);
      if reply.Raised? {
        error := Some(reply.error);
        return;
      }
      after := rewrite(u, reply.text);
    }
  }

  /**
   * The loop of `translate_docx` and `translate_subtitle`, in place: a blank unit is
   * passed over, every other one is rewritten with the reply to its call, and a
   * report follows every unit. An exception from `translate_func` ends the loop,
   * leaving that unit and the ones after it untouched.
   */
  method RewriteUnits<T>(units: array<T>, noun: string, textOf: T -> string, rewrite: (T, string) -> T, tr: Translate)
    returns (sent: seq<string>, reports: seq<Report>, failure: Option<string>)
    modifies units
    ensures var texts := UnitTexts(old(units[..]), textOf);
      var h := Halt(true, texts, tr);
      && units[..] == Rewrite(old(units[..]), textOf, rewrite, tr, h)
      && sent == Calls(true, texts[..Visited(true, texts, tr)])
      && reports == Reports(noun, h, units.Length)
      && failure == (if h < units.Length then Some(tr(CallIndex(true, texts, h), texts[h]).error) else None)
  {
    ghost var texts := UnitTexts(units[..], textOf);
    var stop;
    stop, sent, reports, failure := VisitUnits(units, noun, textOf, rewrite, tr);
    if failure.Some? {
      HaltStops(true, texts, tr, stop);
      SentAtHalt(true, texts, tr, stop, sent);
    } else {
      SentAtHalt(true, texts, tr, units.Length, sent);
    }
  }

  /** The loop itself, up to the unit `stop` where it ended: the first whose call raised, or the end. */
  method VisitUnits<T>(units: array<T>, noun: string, textOf: T -> string, rewrite: (T, string) -> T, tr: Translate)
    returns (stop: nat, sent: seq<string>, reports: seq<Report>, failure: Option<string>)
    modifies units
    ensures var texts := UnitTexts(old(units[..]), textOf);
      && stop <= units.Length && stop <= Halt(true, texts, tr)
      && units[..] == Rewrite(old(units[..]), textOf, rewrite, tr, stop)
      && reports == Reports(noun, stop, units.Length)
      && (failure.None? ==> stop == units.Length && sent == Calls(true, texts[..stop]))
      && (failure.Some? ==>
            && stop < units.Length && Raises(true, texts, tr, stop)
            && sent == Calls(true, texts[..stop + 1])
            && failure == Some(tr(CallIndex(true, texts, stop), texts[stop]).error))
  {
    ghost var us := units[..];
    ghost var texts := UnitTexts(us, textOf);
    var n := units.Length;
    sent, reports, failure := [], [], None;
    stop := 0;
    while stop < n
      invariant 0 <= stop <= n
      invariant stop <= Halt(true, texts, tr)
      invariant units[..] == Rewrite(us, textOf, rewrite, tr, stop)
      invariant sent == Calls(true, texts[..stop])
      invariant reports == Reports(noun, stop, n)
    {
      var error;
      sent, reports, error := VisitAt(units, us, stop, sent, reports, noun, textOf, rewrite, tr);
      if error.Some? {
        failure := error;
        return;
      }
      stop := stop + 1;
    }
  }

  /** One pass of the loop's body, on unit `stop`: its call, its rewrite and its report. */
  method VisitAt<T>(units: array<T>, ghost us: seq<T>, stop: nat, sent: seq<string>, reports: seq<Report>,
                    noun: string, textOf: T -> string, rewrite: (T, string) -> T, tr: Translate)
    returns (sentAfter: seq<string>, reportsAfter: seq<Report>, error: Option<string>)
    requires stop < units.Length == |us|
    requires stop <= Halt(true, UnitTexts(us, textOf), tr)
    requires units[..] == Rewrite(us, textOf, rewrite, tr, stop)
    requires sent == Calls(true, UnitTexts(us, textOf)[..stop])
    requires reports == Reports(noun, stop, units.Length)
    modifies units
    ensures var texts := UnitTexts(us, textOf);
      && sentAfter == Calls(true, texts[..stop + 1])
      && (error.Some? ==>
            && Raises(true, texts, tr, stop)
            && error == Some(tr(CallIndex(true, texts, stop), texts[stop]).error)
            && units[..] == old(units[..]) && reportsAfter == reports)
      && (error.None? ==>
            && stop + 1 <= Halt(true, texts, tr)
            && units[..] == Rewrite(us, textOf, rewrite, tr, stop + 1)
            && reportsAfter == Reports(noun, stop + 1, units.Length))
  {
    ghost var texts := UnitTexts(us, textOf);
    var n := units.Length;
    var u := units[stop];
    assert u == us[stop] && textOf(u) == texts[stop] by {
      RewriteUnvisited(us, textOf, rewrite, tr, stop);
    }
    assert Calls(true, texts[..stop + 1]) == sent + (if IsBlank(texts[stop]) then [] else [texts[stop]]) by {
      CallsStep(true, texts, stop);
    }
    var k := |sent|;
    assert k == CallIndex(true, texts, stop);
    var after, called;
    after, called, error := VisitUnit(u, k, textOf, rewrite, tr);
    sentAfter, reportsAfter := sent, reports;
    if called {
      sentAfter := sent + [textOf(u)];
    }
    if error.Some? {
      assert Raises(true, texts, tr, stop);
      return;
    }
    assert !Raises(true, texts, tr, stop);
    assert stop + 1 <= Halt(true, texts, tr) by {
      HaltPast(true, texts, tr, stop);
    }
    units[stop] := after;
    assert units[..] == Rewrite(us, textOf, rewrite, tr, stop + 1) by {
      RewriteStep(us, textOf, rewrite, tr, stop);
    }
    reportsAfter := reports + [Report(CeilPercent(stop + 1, n), ProgressMessage(noun, stop + 1, n))];
    assert reportsAfter == Reports(noun, stop + 1, n) by {
      ReportsStep(noun, stop, n);
    }
  }
}
