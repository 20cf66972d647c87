/**
 How `synthesize` ends (speech/sarvam_tts.py): when exactly the receive loop of module
 SarvamTts is left, how, and that it can always be left well as long as nothing failed.
 */
module SynthesisEnds {
  import opened SarvamTts

  /** With this message, or this timeout, every flush that was counted has been answered, and no text is to come. */
  predicate LastAnswer(s: State, step: Step)
    requires step.Receive? ==> s.toClient != []
  {
    && s.pump.PumpDone?
    && (|| (step.Receive? && s.toClient[0].FinalMessage? && s.finalsReceived + 1 == s.chunksFlushed)
        || (step.ReceiveTimesOut? && s.finalsReceived == s.chunksFlushed))
  }

  /** The service reports an error, or the connection closes. */
  predicate ServiceFails(s: State, step: Step)
    requires step.Receive? ==> s.toClient != []
  {
    step.ReceiveFails? || (step.Receive? && s.toClient[0].ErrorMessage?)
  }

  /**
   In every reachable state a step ends the loop if and only if it is the last answer,
   after the text has ended, or the service fails. The last answer ends it well exactly
   if the pump did not fail.
   */
  lemma EndsExactly(v: Voice, before: seq<Step>, step: Step)
    requires IsRun(v, INITIAL_STATE, before) && Enabled(v, After(v, INITIAL_STATE, before), step)
    requires After(v, INITIAL_STATE, before).loop.Receiving?
    ensures var s, s' := After(v, INITIAL_STATE, before), Do(v, After(v, INITIAL_STATE, before), step);
      && (s'.loop.Finished? <==> LastAnswer(s, step) && !s.sendError)
      && (s'.loop.RaisedError? <==> (LastAnswer(s, step) && s.sendError) || ServiceFails(s, step))
  {
    var s := After(v, INITIAL_STATE, before);
    RunKeepsInv(v, INITIAL_STATE, before);
    StepKeepsInv(v, s, step);
    hide After, IsRun, WireOk, INITIAL_STATE;
    FinalsAnswerFlushes(v, s);
    FinalsAnswerFlushes(v, Do(v, s, step));
    EndsAt(v, s, step);
  }

  lemma EndsAt(v: Voice, s: State, step: Step)
    requires Enabled(v, s, step) && s.loop.Receiving? && PumpOk(v, s)
    requires s.finalsReceived <= s.flushesPut
    requires step.Receive? && s.toClient[0].FinalMessage? ==> s.finalsReceived + 1 <= s.flushesPut
    ensures var s' := Do(v, s, step);
      && (s'.loop.Finished? <==> LastAnswer(s, step) && !s.sendError)
      && (s'.loop.RaisedError? <==> (LastAnswer(s, step) && s.sendError) || ServiceFails(s, step))
  {
    match step {
      case Receive =>
        match s.toClient[0] {
          case AudioMessage(_) =>
          case FinalMessage =>
          case OtherMessage =>
          case ErrorMessage =>
        }
      case _ =>
    }
  }

  predicate PumpFails(step: Step) {
    step.ChunksFail? || step.PumpSendFails?
  }

  /** A send error stands for a failure of the pump, and for nothing else. */
  lemma {:induction false} SendFailedExactly(v: Voice, s: State, steps: seq<Step>)
    requires IsRun(v, s, steps)
    ensures After(v, s, steps).sendError <==> s.sendError || exists k | 0 <= k < |steps| :: PumpFails(steps[k])
    decreases |steps|
  {
    if steps != [] {
      SendFailedExactly(v, Do(v, s, steps[0]), steps[1..]);
      SendErrorStep(v, s, steps[0]);
      hide Do, Enabled, PumpFails;
      if k :| 0 <= k < |steps| && PumpFails(steps[k]) {
        assert k > 0 ==> steps[k] == steps[1..][k - 1];
      }
      if k :| 0 <= k < |steps[1..]| && PumpFails(steps[1..][k]) {
        assert steps[k + 1] == steps[1..][k];
      }
    }
  }

  lemma SendErrorStep(v: Voice, s: State, step: Step)
    requires Enabled(v, s, step)
    ensures Do(v, s, step).sendError <==> s.sendError || PumpFails(step)
  {
    if step.Receive? {
      match s.toClient[0] {
        case FinalMessage =>
        case _ =>
      }
    }
  }

  predicate Failure(step: Step) {
    PumpFails(step) || step.ReceiveFails? || step == ServerInterjects(ErrorMessage)
  }

  /**
   `synthesize` raises over a whole run only if the pump failed, or the service reported
   an error or closed the connection.
   */
  lemma {:induction false} RaisesOnlyForAFailure(v: Voice, s: State, steps: seq<Step>)
    requires IsRun(v, s, steps) && !s.loop.RaisedError? && After(v, s, steps).loop.RaisedError?
    requires forall i | 0 <= i < |s.toClient| :: !s.toClient[i].ErrorMessage?
    ensures s.sendError || exists k | 0 <= k < |steps| :: Failure(steps[k])
    decreases |steps|
  {
    var step, next := steps[0], Do(v, s, steps[0]);
    if !Failure(step) {
      SendErrorStep(v, s, step);
      QuietStep(v, s, step);
      hide Do, Enabled, Failure;
      if !next.loop.RaisedError? {
        RaisesOnlyForAFailure(v, next, steps[1..]);
        if k :| 0 <= k < |steps[1..]| && Failure(steps[1..][k]) {
          assert steps[k + 1] == steps[1..][k];
        }
      }
    }
  }

  lemma QuietStep(v: Voice, s: State, step: Step)
    requires Enabled(v, s, step) && !step.ReceiveFails? && step != ServerInterjects(ErrorMessage)
    requires !s.loop.RaisedError? && forall i | 0 <= i < |s.toClient| :: !s.toClient[i].ErrorMessage?
    ensures forall i | 0 <= i < |Do(v, s, step).toClient| :: !Do(v, s, step).toClient[i].ErrorMessage?
    ensures Do(v, s, step).loop.RaisedError? ==> s.sendError
  {
    if step.Receive? {
      match s.toClient[0] {
        case FinalMessage =>
        case _ =>
      }
    }
  }

  // ---------------------------------------------------------------------------
  // It can always end well

  predicate NoErrorWaits(s: State) {
    forall i | 0 <= i < |s.toClient| :: !s.toClient[i].ErrorMessage?
  }

  /** How far the pump is from its end. */
  function PumpRank(v: Voice, s: State): int {
    match s.pump
    case AwaitingChunk => 5 * (v.chunks - s.next) + 1
    case SendingText(out) => 5 * (v.chunks - s.next) - (if out then 1 else 0)
    case SendingFlush(out) => 5 * (v.chunks - s.next) - (if out then 3 else 2)
    case PumpDone => 0
  }

  function JobRank(j: Job): nat {
    if j.Job? then |j.rest| + 1 else 0
  }

  /** Text first, then the server's answers, then receiving them, and a timeout when all is received. */
  function NextStep(v: Voice, s: State): Step {
    match s.pump
    case AwaitingChunk => if s.next < v.chunks then ChunkArrives else ChunksEnd
    case SendingText(out) => if out then PumpSent else PumpPuts
    case SendingFlush(out) => if out then PumpSent else PumpPuts
    case PumpDone =>
      if s.job.Job? then ServerAnswers
      else if s.toServer != [] then ServerTakes
      else if s.toClient != [] then Receive
      else ReceiveTimesOut
  }

  lemma PumpAdvances(v: Voice, s: State)
    requires PumpOk(v, s) && s.loop.Receiving? && !s.sendError && NoErrorWaits(s) && !s.pump.PumpDone?
    ensures Enabled(v, s, NextStep(v, s))
    ensures var s' := Do(v, s, NextStep(v, s));
      0 <= PumpRank(v, s') < PumpRank(v, s) && s'.loop.Receiving? && !s'.sendError && NoErrorWaits(s')
  {
  }

  lemma ServerAdvances(v: Voice, s: State)
    requires s.loop.Receiving? && !s.sendError && NoErrorWaits(s) && s.pump.PumpDone?
      && (s.job.Job? || s.toServer != [])
    ensures Enabled(v, s, NextStep(v, s))
    ensures var s' := Do(v, s, NextStep(v, s));
      && s'.pump.PumpDone? && s'.loop.Receiving? && !s'.sendError && NoErrorWaits(s')
      && (|s'.toServer| < |s.toServer| || (|s'.toServer| == |s.toServer| && JobRank(s'.job) < JobRank(s.job)))
  {
  }

  lemma LoopAdvances(v: Voice, s: State)
    requires Inv(v, s) && s.loop.Receiving? && !s.sendError && NoErrorWaits(s)
    requires s.pump.PumpDone? && s.job.NoJob? && s.toServer == []
    ensures Enabled(v, s, NextStep(v, s))
    ensures var s' := Do(v, s, NextStep(v, s));
      || s'.loop.Finished?
      || (&& s'.pump.PumpDone? && s'.loop.Receiving? && !s'.sendError && NoErrorWaits(s')
          && s'.job.NoJob? && s'.toServer == [] && |s'.toClient| < |s.toClient|)
  {
    hide WireOk;
    if s.toClient == [] {
      NothingPending(v, s);
    } else {
      assert !s.toClient[0].ErrorMessage?;
      assert forall i | 0 <= i < |s.toClient[1..]| :: s.toClient[1..][i] == s.toClient[i + 1];
      match s.toClient[0] {
        case FinalMessage =>
        case _ =>
      }
    }
  }

  /** With the wire empty, every flush has been answered. */
  lemma NothingPending(v: Voice, s: State)
    requires Inv(v, s) && s.pump.PumpDone? && !s.sendError && s.job.NoJob? && s.toServer == [] && s.toClient == []
    ensures s.finalsReceived == s.chunksFlushed
  {
    AskedCounts(v, s.flushesPut, s.textPut);
    AccountedTotals(Asked(v, s.flushesPut, s.textPut), Pipeline(v, s), s.yielded, s.finalsReceived);
    SoundsAudio(AudioOf(v, s.unflushed));
    hide Sounds, AudioOf, Asked, Accounted;
    assert Pipeline(v, s) == Sounds(AudioOf(v, s.unflushed));
  }

  /** From every state that is not failed, and in which no error waits, the loop can still be left well. */
  lemma {:induction false} CanFinish(v: Voice, s: State) returns (steps: seq<Step>)
    requires Inv(v, s) && s.loop.Receiving? && !s.sendError && NoErrorWaits(s)
    ensures IsRun(v, s, steps) && After(v, s, steps).loop.Finished?
    decreases PumpRank(v, s), |s.toServer|, JobRank(s.job), |s.toClient|
  {
    var step := NextStep(v, s);
    if !s.pump.PumpDone? {
      PumpAdvances(v, s);
    } else if s.job.Job? || s.toServer != [] {
      ServerAdvances(v, s);
    } else {
      LoopAdvances(v, s);
    }
    StepKeepsInv(v, s, step);
    var next := Do(v, s, step);
    hide Inv, Do, Enabled, NextStep, NoErrorWaits;
    if next.loop.Finished? {
      steps := [step];
      assert steps[1..] == [];
    } else {
      var rest := CanFinish(v, next);
      steps := [step] + rest;
      assert steps[1..] == rest;
    }
  }

  lemma InitialIsInv(v: Voice)
    ensures Inv(v, INITIAL_STATE) && NoErrorWaits(INITIAL_STATE)
  {
  }

  /** Every text can be spoken to its end, and then all its audio was yielded. */
  lemma EveryVoiceFinishes(v: Voice) returns (steps: seq<Step>)
    ensures IsRun(v, INITIAL_STATE, steps) && After(v, INITIAL_STATE, steps).loop.Finished?
    ensures After(v, INITIAL_STATE, steps).yielded == AudioOf(v, Upto(v.chunks))
  {
    InitialIsInv(v);
    steps := CanFinish(v, INITIAL_STATE);
    FinishedMeansEverything(v, steps);
  }

  /** How many pieces of audio the chunks before the n-th have. */
  function PiecesBefore(v: Voice, n: nat): nat {
    if n == 0 then 0 else PiecesBefore(v, n - 1) + |v.audio(n - 1)|
  }

  lemma {:induction false} AudioCount(v: Voice, n: nat)
    ensures |AudioOf(v, Upto(n))| == PiecesBefore(v, n)
    ensures n > 0 ==> AudioOf(v, Upto(n)) == AudioOf(v, Upto(n - 1)) + v.audio(n - 1)
  {
    if n > 0 {
      AudioCount(v, n - 1);
      assert Upto(n) == Upto(n - 1) + [n - 1];
      AudioSnoc(v, Upto(n - 1), n - 1);
    }
  }

  lemma {:induction false} AudioSnoc(v: Voice, chunks: seq<nat>, chunk: nat)
    ensures AudioOf(v, chunks + [chunk]) == AudioOf(v, chunks) + v.audio(chunk)
  {
    var all := chunks + [chunk];
    if chunks == [] {
      assert all[0] == chunk && all[1..] == [];
      assert v.audio(chunk) + [] == [] + v.audio(chunk);
    } else {
      assert all[0] == chunks[0] && all[1..] == chunks[1..] + [chunk];
      AudioSnoc(v, chunks[1..], chunk);
      assert v.audio(chunks[0]) + (AudioOf(v, chunks[1..]) + v.audio(chunk))
        == v.audio(chunks[0]) + AudioOf(v, chunks[1..]) + v.audio(chunk);
    }
  }

  /** All the audio of a text: piece k of chunk i stands right behind all the pieces before it. */
  lemma {:induction false} AudioExactly(v: Voice, n: nat, i: nat, k: nat)
    requires i < n && k < |v.audio(i)|
    ensures var all := AudioOf(v, Upto(n));
      && |all| == PiecesBefore(v, n) && PiecesBefore(v, i) + k < |all|
      && all[PiecesBefore(v, i) + k] == v.audio(i)[k]
  {
    hide AudioOf, Upto;
    AudioCount(v, n);
    AudioCount(v, n - 1);
    if i < n - 1 {
      AudioExactly(v, n - 1, i, k);
    }
  }
}
