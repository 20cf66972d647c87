/**
 What the speech gateway does when a speech service fails
 (speech_gateway/failure_policy.py).

 A failing transcription stream is tried again with growing waits and
 then handed to REST; a failing synthesis is tried once more, over a
 replay of the text that gives the second attempt all of it again
 (speech_gateway/main.py). The services are parameters: an attempt may
 give anything and fail at any point. Waits are reals, and the total
 wait is given in closed form.
 */
module FailurePolicy {
  // ---------------------------------------------------------------------------
  // Speech to text: exponential backoff, then REST

  const FIRST_DELAY := 0.25

  function Pow2(k: nat): real {
    if k == 0 then 1.0 else 2.0 * Pow2(k - 1)
  }

  /** The total wait after k sleeps. */
  function Waited(k: nat): real {
    FIRST_DELAY * (Pow2(k) - 1.0)
  }

  function Sum(sleeps: seq<real>): real {
    if sleeps == [] then 0.0 else Sum(sleeps[..|sleeps| - 1]) + sleeps[|sleeps| - 1]
  }

  /** One streaming attempt: its events, and whether it raised in the end. */
  datatype SttAttempt = SttAttempt(events: seq<string>, raised: bool)

  /** What the caller sees: an event of the stream, the REST result, or the error when REST failed too. */
  datatype SttEvent = FromStream(event: string) | FromRest(result: string) | GaveUp

  datatype Rest = RestResult(result: string) | RestRaised

  function FromAll(events: seq<string>): seq<SttEvent> {
    if events == [] then [] else FromAll(events[..|events| - 1]) + [FromStream(events[|events| - 1])]
  }

  /** The events of the first n attempts, in order. */
  function Streamed(attempts: nat -> SttAttempt, n: nat): seq<SttEvent> {
    if n == 0 then [] else Streamed(attempts, n - 1) + FromAll(attempts(n - 1).events)
  }

  /** How many events the first n attempts gave. */
  function EventCount(attempts: nat -> SttAttempt, n: nat): nat {
    if n == 0 then 0 else EventCount(attempts, n - 1) + |attempts(n - 1).events|
  }

  lemma {:induction false} FromAllAt(events: seq<string>)
    ensures |FromAll(events)| == |events| && forall k | 0 <= k < |events| :: FromAll(events)[k] == FromStream(events[k])
  {
    if events != [] {
      FromAllAt(events[..|events| - 1]);
    }
  }

  /** Event k of attempt i stands right behind the events of the attempts before it and its own before it. */
  lemma {:induction false} StreamedAt(attempts: nat -> SttAttempt, n: nat, i: nat, k: nat)
    requires i < n && k < |attempts(i).events|
    ensures |Streamed(attempts, n)| == EventCount(attempts, n)
    ensures EventCount(attempts, i) + k < EventCount(attempts, n)
    ensures Streamed(attempts, n)[EventCount(attempts, i) + k] == FromStream(attempts(i).events[k])
  {
    FromAllAt(attempts(n - 1).events);
    StreamedCount(attempts, n - 1);
    if i < n - 1 {
      StreamedAt(attempts, n - 1, i, k);
    }
  }

  lemma {:induction false} StreamedCount(attempts: nat -> SttAttempt, n: nat)
    ensures |Streamed(attempts, n)| == EventCount(attempts, n)
  {
    if n > 0 {
      StreamedCount(attempts, n - 1);
      FromAllAt(attempts(n - 1).events);
    }
  }

  /** n attempts were made, and all but perhaps the last raised. */
  predicate Raised(attempts: nat -> SttAttempt, n: nat) {
    forall i | 0 <= i < n :: attempts(i).raised
  }

  /** The sleeps are 0.25, 0.5, 1, ... seconds. */
  predicate Doubling(sleeps: seq<real>) {
    forall i | 0 <= i < |sleeps| :: sleeps[i] == FIRST_DELAY * Pow2(i)
  }

  lemma {:induction false} Pow2Grows(i: nat, j: nat)
    requires i <= j
    ensures 1.0 <= Pow2(i) <= Pow2(j)
    decreases j
  {
    if i < j {
      Pow2Grows(i, j - 1);
    } else if i > 0 {
      Pow2Grows(i - 1, i - 1);
    }
  }

  lemma WaitedMore(k: nat)
    ensures Waited(k + 1) == Waited(k) + FIRST_DELAY * Pow2(k)
    ensures FIRST_DELAY * Pow2(k) >= FIRST_DELAY
  {
    Pow2Grows(0, k);
  }

  function NextDelay(delay: real, left: real): real {
    if delay * 2.0 < left then delay * 2.0 else left
  }

  /** The loop's numbers: k sleeps so far, doubling, unless the next would reach the bound. */
  predicate Backing(k: nat, delay: real, elapsed: real, maxBackoff: real) {
    && elapsed == Waited(k)
    && 0.0 < delay <= FIRST_DELAY * Pow2(k)
    && (delay == FIRST_DELAY * Pow2(k) || elapsed + delay >= maxBackoff)
  }

  function Budget(elapsed: real, maxBackoff: real): int {
    (4.0 * (maxBackoff - elapsed)).Floor
  }

  lemma BackingOn(k: nat, delay: real, elapsed: real, maxBackoff: real)
    requires Backing(k, delay, elapsed, maxBackoff) && elapsed + delay < maxBackoff
    ensures delay == FIRST_DELAY * Pow2(k)
    ensures Backing(k + 1, NextDelay(delay, maxBackoff - (elapsed + delay)), elapsed + delay, maxBackoff)
    ensures 0 <= Budget(elapsed + delay, maxBackoff) < Budget(elapsed, maxBackoff)
  {
    WaitedMore(k);
  }

  lemma BackingStarts(maxBackoff: real)
    ensures Backing(0, FIRST_DELAY, 0.0, maxBackoff)
  {
  }

  lemma BackingEnds(k: nat, delay: real, elapsed: real, maxBackoff: real)
    requires Backing(k, delay, elapsed, maxBackoff) && elapsed + delay >= maxBackoff
    ensures Waited(k + 1) >= maxBackoff
  {
    WaitedMore(k);
  }

  lemma SumSnoc(sleeps: seq<real>, delay: real)
    requires Doubling(sleeps) && delay == FIRST_DELAY * Pow2(|sleeps|)
    ensures Sum(sleeps + [delay]) == Sum(sleeps) + delay && Doubling(sleeps + [delay])
  {
    assert (sleeps + [delay])[..|sleeps|] == sleeps;
  }

  /** async for event in stream_attempt(): yield event */
  method YieldAll(yielded: seq<SttEvent>, streamed: seq<string>) returns (events: seq<SttEvent>)
    ensures events == yielded + FromAll(streamed)
  {
    events := yielded;
    for i := 0 to |streamed|
      invariant events == yielded + FromAll(streamed[..i])
    {
      assert streamed[..i + 1][..i] == streamed[..i];
      events := events + [FromStream(streamed[i])];
    }
    assert streamed[..|streamed|] == streamed;
  }

  /** stt_stream_with_backoff_then_rest */
  method SttStreamWithBackoffThenRest(attempts: nat -> SttAttempt, rest: Rest, maxBackoff: real)
    returns (events: seq<SttEvent>, sleeps: seq<real>, made: nat, restCalls: nat)
    // the first attempt that does not raise ends it; every earlier one raised
    ensures restCalls == 0 ==>
      made > 0 && !attempts(made - 1).raised && Raised(attempts, made - 1) && events == Streamed(attempts, made)
    // otherwise REST runs once after the last attempt and gives exactly one closing event
    ensures restCalls > 0 ==>
      && restCalls == 1 && Raised(attempts, made)
      && events == Streamed(attempts, made) + [if rest.RestResult? then FromRest(rest.result) else GaveUp]
    // the waits double, and stay below the bound in total
    ensures Doubling(sleeps) && |sleeps| == (if made == 0 then 0 else made - 1)
    ensures Sum(sleeps) == Waited(|sleeps|) && (made > 0 ==> Sum(sleeps) < maxBackoff)
    // it gives up only when one more wait would reach the bound
    ensures restCalls > 0 ==> if maxBackoff <= 0.0 then made == 0 else made > 0 && Waited(made) >= maxBackoff
  {
    hide Pow2, Waited, Backing, Doubling, Sum, Budget, FromAll;
    var delay, elapsed := FIRST_DELAY, 0.0;
    events, sleeps, made, restCalls := [], [], 0, 0;
    BackingStarts(maxBackoff);
    NoSleeps();
    while elapsed < maxBackoff
      invariant restCalls == 0 && Raised(attempts, made) && events == Streamed(attempts, made)
      invariant |sleeps| == made && Doubling(sleeps) && Sum(sleeps) == elapsed == Waited(made)
      invariant Backing(made, delay, elapsed, maxBackoff)
      invariant made > 0 ==> elapsed < maxBackoff
      decreases Budget(elapsed, maxBackoff)
    {
      var attempt := attempts(made);
      events := YieldAll(events, attempt.events);
      if !attempt.raised {
        made := made + 1;
        return;
      }
      if elapsed + delay >= maxBackoff {
        BackingEnds(made, delay, elapsed, maxBackoff);
        BackingMeans(made, delay, elapsed, maxBackoff);
        made := made + 1;
        break;
      }
      BackingOn(made, delay, elapsed, maxBackoff);
      SumSnoc(sleeps, delay);
      sleeps := sleeps + [delay];
      elapsed := elapsed + delay;
      delay := NextDelay(delay, maxBackoff - elapsed);
      made := made + 1;
      BackingMeans(made, delay, elapsed, maxBackoff);
    }
    restCalls := 1;
    events := events + [if rest.RestResult? then FromRest(rest.result) else GaveUp];
  }

  lemma NoSleeps()
    ensures Doubling([]) && Sum([]) == 0.0 == Waited(0)
  {
  }

  lemma BackingMeans(k: nat, delay: real, elapsed: real, maxBackoff: real)
    requires Backing(k, delay, elapsed, maxBackoff)
    ensures elapsed == Waited(k) >= 0.0
  {
    Pow2Grows(0, k);
  }

  /** The number of sleeps before giving up: the largest k whose total wait stays below the bound. */
  predicate LastSleep(k: nat, maxBackoff: real) {
    Waited(k) < maxBackoff <= Waited(k + 1)
  }

  lemma LastSleepIsLargest(k: nat, j: nat, maxBackoff: real)
    requires LastSleep(k, maxBackoff)
    ensures Waited(j) < maxBackoff <==> j <= k
  {
    if j <= k {
      Pow2Grows(j, k);
    } else {
      Pow2Grows(k + 1, j);
    }
  }

  /**
   A stream that always fails is attempted k + 1 times, where k is the largest number
   with 0.25 (2^k - 1) below the bound, and that is exactly how long it waits in all.
   */
  method AlwaysFailing(attempts: nat -> SttAttempt, rest: Rest, maxBackoff: real)
    returns (events: seq<SttEvent>, sleeps: seq<real>, made: nat)
    requires maxBackoff > 0.0 && forall n :: attempts(n).raised
    ensures made == |sleeps| + 1 && LastSleep(|sleeps|, maxBackoff)
      && Sum(sleeps) == 0.25 * (Pow2(|sleeps|) - 1.0)
    ensures forall j: nat :: 0.25 * (Pow2(j) - 1.0) < maxBackoff <==> j <= |sleeps|
    ensures events == Streamed(attempts, made) + [if rest.RestResult? then FromRest(rest.result) else GaveUp]
  {
    var restCalls;
    events, sleeps, made, restCalls := SttStreamWithBackoffThenRest(attempts, rest, maxBackoff);
    forall j: nat ensures 0.25 * (Pow2(j) - 1.0) < maxBackoff <==> j <= |sleeps| {
      LastSleepIsLargest(|sleeps|, j, maxBackoff);
    }
  }

  // ---------------------------------------------------------------------------
  // Text to speech: one retry, then text only

  /** _text_gen with _sent_chunks: the text chunks to come, and those already handed to some attempt. */
  class Replay {
    const chunks: seq<string>    // all the text the generator would give
    var sent: seq<string>        // _sent_chunks
    var closed: bool             // an attempt was cancelled while it waited for text, which ends the generator

    ghost predicate Valid()
      reads this
    {
      sent <= chunks
    }

    constructor (chunks: seq<string>)
      ensures Valid() && this.chunks == chunks && sent == [] && !closed
    {
      this.chunks := chunks;
      sent, closed := [], false;
    }

    /** The text an attempt can get: all of it, unless the generator was ended. */
    function Available(): seq<string>
      reads this
    {
      if closed then sent else chunks
    }

    /** The first n chunks of _replay_then_continue: what was sent before, then what the generator still gives. */
    method Pull(n: nat) returns (given: seq<string>)
      requires Valid()
      modifies this`sent
      ensures Valid() && given == Take(old(Available()), n)
      ensures sent == if n <= |old(sent)| then old(sent) else given
    {
      given := [];
      ghost var before := sent;
      var i := 0;
      while i < |sent| && i < n
        invariant 0 <= i <= |sent| && i <= n && given == chunks[..i] && sent == before
      {
        given := given + [sent[i]];
        i := i + 1;
      }
      while i < n && !closed && |sent| < |chunks|
        invariant sent <= chunks && before <= sent && |sent| <= |chunks|
        invariant i <= n && i <= |sent| && given == chunks[..i]
        invariant i == |sent| || (i == n && sent == before)
        invariant closed ==> sent == before
      {
        var chunk := chunks[|sent|];
        sent := sent + [chunk];
        given := given + [chunk];
        i := i + 1;
      }
    }
  }

  function Take(chunks: seq<string>, n: nat): seq<string> {
    if n <= |chunks| then chunks[..n] else chunks
  }

  /** One synthesis: how much text it takes, the audio it gives, whether it raised, and whether it ended the text. */
  datatype TtsAttempt = TtsAttempt(pulls: nat, audio: seq<string>, raised: bool, closesText: bool)

  /** tts_synthesize_with_retry_then_fallback over the replayed text. */
  method SynthesizeWithRetry(text: Replay, attempts: nat -> TtsAttempt)
    returns (audio: seq<string>, heard: seq<seq<string>>, textOnly: bool)
    requires text.Valid() && text.sent == [] && !text.closed
    modifies text
    ensures audio == attempts(0).audio + if attempts(0).raised then attempts(1).audio else []
    ensures textOnly <==> attempts(0).raised && attempts(1).raised
    ensures |heard| == if attempts(0).raised then 2 else 1
    // every attempt is given the text from its start: the second all of it, unless the first
    // ended the generator, and then what the first was given
    ensures heard[0] == Take(text.chunks, attempts(0).pulls)
    ensures |heard| == 2 ==>
      heard[1] == Take(if attempts(0).closesText then heard[0] else text.chunks, attempts(1).pulls)
  {
    audio, heard, textOnly := [], [], false;
    for attempt := 0 to 2
      invariant text.Valid() && |heard| == attempt && !textOnly
      invariant attempt == 0 ==> text.sent == [] && !text.closed && audio == []
      invariant attempt == 1 ==> attempts(0).raised && audio == attempts(0).audio
      invariant attempt == 1 ==> text.closed == attempts(0).closesText
      invariant attempt == 1 ==> heard[0] == text.sent == Take(text.chunks, attempts(0).pulls)
      invariant attempt < 2
    {
      var given := text.Pull(attempts(attempt).pulls);
      heard := heard + [given];
      audio := audio + attempts(attempt).audio;
      if !attempts(attempt).raised {
        return;
      }
      text.closed := text.closed || attempts(attempt).closesText;
      if attempt == 1 {
        textOnly := true;
        return;
      }
    }
  }
}
