/**
 * The retry loops of `translate_gemini` and `translate_deepseek`: the providers,
 * their pacing, and what the loop returns or raises for the outcomes of its
 * attempts. Sleeps are recorded, in milliseconds, instead of taken.
 */
module Retries {
  import opened Text
  import opened Units

  datatype Provider = Gemini | DeepSeek

  /** `RETRY_ATTEMPTS` */
  const RetryAttempts: nat := 3

  /** `RETRY_DELAY_SECONDS`, in milliseconds */
  const RetryDelayMillis: nat := 5000

  /** The provider's name as the request form gives it. */
  function ProviderName(p: Provider): string {
    match p
    case Gemini => "gemini"
    case DeepSeek => "deepseek"
  }

  /** `RPM_LIMITS` */
  function RpmLimit(p: Provider): nat {
    match p
    case Gemini => 50
    case DeepSeek => 25
  }

  /** `TIME_PER_REQUEST`, in milliseconds: one minute shared out over the provider's requests per minute. */
  function PaceMillis(p: Provider): (ms: nat)
    ensures ms * RpmLimit(p) == 60000
    ensures ms != RetryDelayMillis
  {
    match p
    case Gemini => 1200
    case DeepSeek => 2400
  }

  // ------------------------------------------------------------ retry policies

  /**
   * The outcome of one attempt: the model's answer; a failure to reach the service
   * (the request raised); or a response whose translation cannot be read (Gemini's
   * `response.text` raising, DeepSeek's reply lacking `choices`).
   */
  datatype Attempt = Answer(text: string) | Unreachable(error: string) | Unreadable(error: string)

  /**
   * How the loop ended: with the model's answer (before `.strip()`), by giving up
   * after the last attempt with the marked text, or by letting an error escape.
   */
  datatype Exit = Answered(response: string) | GaveUp(marked: string) | Escaped(error: string)

  /** One call of a translator: how its loop ended, the requests it sent and the sleeps it took, in order. */
  datatype Call = Call(exit: Exit, requests: nat, sleeps: seq<nat>)

  /** What the translate function returns or raises for a loop's exit: an answer is stripped. */
  function ReplyOf(e: Exit): (r: Reply)
    ensures r.Raised? <==> e.Escaped?
    ensures e.Answered? ==> r.text == Strip(e.response)
    ensures e.GaveUp? ==> r.text == e.marked
  {
    match e
    case Answered(response) => Done(Strip(response))
    case GaveUp(marked) => Done(marked)
    case Escaped(error) => Raised(error)
  }

  /** The prefix of the string returned once every attempt has failed. */
  function FailureMarker(p: Provider): string {
    match p
    case Gemini => "GEMINI TRANSLATION FAILED: "
    case DeepSeek => "DEEPSEEK TRANSLATION FAILED: "
  }

  /** Whether the failed attempt is caught by the loop: Gemini catches every exception, DeepSeek only request errors. */
  predicate Caught(p: Provider, a: Attempt) {
    a.Unreachable? || (a.Unreadable? && p == Gemini)
  }

  /** The sleeps of an attempt that is caught, before the retry delay: Gemini paces after any response. */
  function PaceBeforeCatch(p: Provider, a: Attempt): seq<nat> {
    if a.Unreadable? then [PaceMillis(p)] else []
  }

  /**
   * The retry loop from attempt `attempt` on: an answer is paced and returned; a
   * caught failure waits the retry delay and tries again, except the last, which
   * gives up with the failure marker followed by the text; an uncaught one escapes.
   * Only DeepSeek lets an error escape.
   */
  function Retry(p: Provider, text: string, outcome: nat -> Attempt, attempt: nat): (c: Call)
    requires attempt < RetryAttempts
    ensures 1 <= c.requests <= RetryAttempts - attempt
    ensures c.exit.Escaped? ==> p == DeepSeek
    ensures c.exit.GaveUp? ==> c.exit.marked == FailureMarker(p) + text
    decreases RetryAttempts - attempt
  {
    var a := outcome(attempt);
    if a.Answer? then Call(Answered(a.text), 1, [PaceMillis(p)])
    else if !Caught(p, a) then Call(Escaped(a.error), 1, [])
    else if attempt < RetryAttempts - 1 then
      var rest := Retry(p, text, outcome, attempt + 1);
      Call(rest.exit, rest.requests + 1, PaceBeforeCatch(p, a) + [RetryDelayMillis] + rest.sleeps)
    else Call(GaveUp(FailureMarker(p) + text), 1, PaceBeforeCatch(p, a))
  }

  /** A call resumed after `requests` requests and `sleeps` sleeps. */
  function Resumed(requests: nat, sleeps: seq<nat>, c: Call): Call {
    Call(c.exit, requests + c.requests, sleeps + c.sleeps)
  }

  lemma ResumedTwice(r1: nat, s1: seq<nat>, r2: nat, s2: seq<nat>, c: Call)
    ensures Resumed(r1, s1, Resumed(r2, s2, c)) == Resumed(r1 + r2, s1 + s2, c)
  {
    assert s1 + (s2 + c.sleeps) == (s1 + s2) + c.sleeps;
  }

  /** One attempt of the loop, by the cases of its outcome. */
  lemma RetryUnfold(p: Provider, text: string, outcome: nat -> Attempt, attempt: nat)
    requires attempt < RetryAttempts
    ensures var a := outcome(attempt); var c := Retry(p, text, outcome, attempt);
      && (a.Answer? ==> c == Call(Answered(a.text), 1, [PaceMillis(p)]))
      && (!a.Answer? && !Caught(p, a) ==> c == Call(Escaped(a.error), 1, []))
      && (Caught(p, a) && attempt < RetryAttempts - 1 ==>
            c == Resumed(1, PaceBeforeCatch(p, a) + [RetryDelayMillis], Retry(p, text, outcome, attempt + 1)))
      && (Caught(p, a) && attempt == RetryAttempts - 1 ==> c == Call(GaveUp(FailureMarker(p) + text), 1, PaceBeforeCatch(p, a)))
  {
  }

  /** Where the whole loop stands once attempt `attempt` has been made, after `before` was slept. */
  lemma RetryAfterAttempt(p: Provider, text: string, outcome: nat -> Attempt, attempt: nat, before: seq<nat>)
    requires attempt < RetryAttempts
    requires Retry(p, text, outcome, 0) == Resumed(attempt, before, Retry(p, text, outcome, attempt))
    ensures var a := outcome(attempt); var c := Retry(p, text, outcome, 0);
      && (a.Answer? ==> c == Call(Answered(a.text), attempt + 1, before + [PaceMillis(p)]))
      && (!a.Answer? && !Caught(p, a) ==> c == Call(Escaped(a.error), attempt + 1, before))
      && (Caught(p, a) && attempt == RetryAttempts - 1 ==>
            c == Call(GaveUp(FailureMarker(p) + text), attempt + 1, before + PaceBeforeCatch(p, a)))
      && (Caught(p, a) && attempt < RetryAttempts - 1 ==>
            c == Resumed(attempt + 1, before + PaceBeforeCatch(p, a) + [RetryDelayMillis], Retry(p, text, outcome, attempt + 1)))
  {
    RetryUnfold(p, text, outcome, attempt);
    var a := outcome(attempt);
    if Caught(p, a) && attempt < RetryAttempts - 1 {
      ResumedTwice(attempt, before, 1, PaceBeforeCatch(p, a) + [RetryDelayMillis], Retry(p, text, outcome, attempt + 1));
      assert before + (PaceBeforeCatch(p, a) + [RetryDelayMillis]) == before + PaceBeforeCatch(p, a) + [RetryDelayMillis];
    }
  }

  /** The `for attempt in range(RETRY_ATTEMPTS)` loop shared by both translators. */
  method RetryLoop(p: Provider, text: string, outcome: nat -> Attempt) returns (c: Call)
    ensures c == Retry(p, text, outcome, 0)
  {
    var requests := 0;
    var sleeps: seq<nat> := [];
    var attempt := 0;
    assert [] + Retry(p, text, outcome, 0).sleeps == Retry(p, text, outcome, 0).sleeps;
    while true
      invariant attempt < RetryAttempts && requests == attempt
      invariant Retry(p, text, outcome, 0) == Resumed(attempt, sleeps, Retry(p, text, outcome, attempt))
      decreases RetryAttempts - attempt
    {
      RetryAfterAttempt(p, text, outcome, attempt, sleeps);
      var a := outcome(attempt);
      requests := requests + 1;
      if a.Answer? {
        sleeps := sleeps + [PaceMillis(p)];
        return Call(Answered(a.text), requests, sleeps);
      }
      if !Caught(p, a) {
        return Call(Escaped(a.error), requests, sleeps);
      }
      sleeps := sleeps + PaceBeforeCatch(p, a);
      if attempt == RetryAttempts - 1 {
        return Call(GaveUp(FailureMarker(p) + text), requests, sleeps);
      }
      sleeps := sleeps + [RetryDelayMillis];
      attempt := attempt + 1;
    }
  }

  // -------------------------------------------------------------------- lemmas

  /** `n` retry delays. */
  function Delays(n: nat): (r: seq<nat>)
    ensures |r| == n && forall i :: 0 <= i < n ==> r[i] == RetryDelayMillis
  {
    seq(n, i => RetryDelayMillis)
  }

  /**
   * Request failures on the attempts before `i` and an answer on attempt `i`: that
   * answer is returned after `i + 1` requests, `i` delays and one pace.
   */
  lemma {:induction false} RetryFirstAnswer(p: Provider, text: string, outcome: nat -> Attempt, from: nat, i: nat)
    requires from <= i < RetryAttempts
    requires forall j :: from <= j < i ==> outcome(j).Unreachable?
    requires outcome(i).Answer?
    ensures Retry(p, text, outcome, from) == Call(Answered(outcome(i).text), i - from + 1, Delays(i - from) + [PaceMillis(p)])
    decreases i - from
  {
    if from < i {
      RetryFirstAnswer(p, text, outcome, from + 1, i);
      assert [RetryDelayMillis] + Delays(i - from - 1) == Delays(i - from);
    }
  }

  /** Every attempt fails to reach the service: three requests, two delays, and the marker followed by the text. */
  lemma RetryAllFail(p: Provider, text: string, outcome: nat -> Attempt)
    requires forall j :: 0 <= j < RetryAttempts ==> outcome(j).Unreachable?
    ensures Retry(p, text, outcome, 0) == Call(GaveUp(FailureMarker(p) + text), 3, [RetryDelayMillis, RetryDelayMillis])
  {
    assert Retry(p, text, outcome, 2) == Call(GaveUp(FailureMarker(p) + text), 1, []);
    assert Retry(p, text, outcome, 1).sleeps == [RetryDelayMillis];
  }

  /** Gemini catches an unreadable response too: after a pace and a delay it tries again. */
  lemma GeminiUnreadableRetried(text: string, outcome: nat -> Attempt)
    requires outcome(0).Unreadable? && outcome(1).Answer?
    ensures Retry(Gemini, text, outcome, 0) == Call(Answered(outcome(1).text), 2, [PaceMillis(Gemini), RetryDelayMillis, PaceMillis(Gemini)])
  {
    assert Retry(Gemini, text, outcome, 1) == Call(Answered(outcome(1).text), 1, [PaceMillis(Gemini)]);
  }

  /**
   * DeepSeek lets a reply without `choices` escape on its first occurrence: after
   * request failures on the attempts before `i`, the error of attempt `i` is raised
   * with no pace and no further request.
   */
  lemma {:induction false} DeepSeekUnreadableEscapes(text: string, outcome: nat -> Attempt, from: nat, i: nat)
    requires from <= i < RetryAttempts
    requires forall j :: from <= j < i ==> outcome(j).Unreachable?
    requires outcome(i).Unreadable?
    ensures Retry(DeepSeek, text, outcome, from) == Call(Escaped(outcome(i).error), i - from + 1, Delays(i - from))
    decreases i - from
  {
    if from < i {
      DeepSeekUnreadableEscapes(text, outcome, from + 1, i);
      assert [RetryDelayMillis] + Delays(i - from - 1) == Delays(i - from);
    }
  }

  /** An answer comes from some attempt, and the loop paces after it as its last sleep. */
  lemma {:induction false} RetryPacesAnswer(p: Provider, text: string, outcome: nat -> Attempt, attempt: nat)
    requires attempt < RetryAttempts
    ensures var c := Retry(p, text, outcome, attempt);
      c.exit.Answered? ==>
        && (exists j :: attempt <= j < RetryAttempts && outcome(j) == Answer(c.exit.response))
        && c.sleeps != [] && c.sleeps[|c.sleeps| - 1] == PaceMillis(p)
    decreases RetryAttempts - attempt
  {
    var a := outcome(attempt);
    if !a.Answer? && Caught(p, a) && attempt < RetryAttempts - 1 {
      RetryPacesAnswer(p, text, outcome, attempt + 1);
    }
  }

  /**
   * Gemini catches every failure, whatever its kind: after failures of any mix of
   * kinds on the attempts before `i`, the answer of attempt `i` is the one returned,
   * after `i + 1` requests.
   */
  lemma {:induction false} GeminiFirstAnswer(text: string, outcome: nat -> Attempt, from: nat, i: nat)
    requires from <= i < RetryAttempts
    requires forall j :: from <= j < i ==> !outcome(j).Answer?
    requires outcome(i).Answer?
    ensures Retry(Gemini, text, outcome, from).exit == Answered(outcome(i).text)
    ensures Retry(Gemini, text, outcome, from).requests == i - from + 1
    decreases i - from
  {
    if from < i {
      assert Caught(Gemini, outcome(from));
      GeminiFirstAnswer(text, outcome, from + 1, i);
    }
  }

  /** How many of `sleeps` are retry delays. */
  function DelayCount(sleeps: seq<nat>): nat
    decreases |sleeps|
  {
    if sleeps == [] then 0
    else DelayCount(sleeps[..|sleeps| - 1]) + if sleeps[|sleeps| - 1] == RetryDelayMillis then 1 else 0
  }

  lemma {:induction false} DelayCountConcat(xs: seq<nat>, ys: seq<nat>)
    ensures DelayCount(xs + ys) == DelayCount(xs) + DelayCount(ys)
    decreases |ys|
  {
    if ys != [] {
      var init := ys[..|ys| - 1];
      assert (xs + ys)[..|xs + ys| - 1] == xs + init;
      DelayCountConcat(xs, init);
    } else {
      assert xs + ys == xs;
    }
  }

  /**
   * The loop waits the retry delay between consecutive requests and at no other
   * time, and it gives up only after all its attempts.
   */
  lemma {:induction false} RetryDelaysBetweenRequests(p: Provider, text: string, outcome: nat -> Attempt, attempt: nat)
    requires attempt < RetryAttempts
    ensures var c := Retry(p, text, outcome, attempt);
      && DelayCount(c.sleeps) == c.requests - 1
      && (c.exit.GaveUp? ==> c.requests == RetryAttempts - attempt)
    decreases RetryAttempts - attempt
  {
    var a := outcome(attempt);
    PacesAreNotDelays(p, a);
    if Caught(p, a) && attempt < RetryAttempts - 1 {
      RetryDelaysBetweenRequests(p, text, outcome, attempt + 1);
      ResumedDelays(PaceBeforeCatch(p, a), Retry(p, text, outcome, attempt + 1));
    }
  }

  /** No pace is a retry delay. */
  lemma PacesAreNotDelays(p: Provider, a: Attempt)
    ensures DelayCount(PaceBeforeCatch(p, a)) == 0 && DelayCount([PaceMillis(p)]) == 0
  {
    assert [PaceMillis(p)][..0] == [];
  }

  /** Resuming after one request and a retry delay adds one request and one delay. */
  lemma ResumedDelays(paces: seq<nat>, rest: Call)
    requires DelayCount(paces) == 0
    requires rest.requests >= 1 && DelayCount(rest.sleeps) == rest.requests - 1
    ensures var c := Resumed(1, paces + [RetryDelayMillis], rest);
      DelayCount(c.sleeps) == c.requests - 1 && c.exit == rest.exit
  {
    DelayCountConcat(paces + [RetryDelayMillis], rest.sleeps);
    DelayCountConcat(paces, [RetryDelayMillis]);
    assert [RetryDelayMillis][..0] == [];
  }
}
