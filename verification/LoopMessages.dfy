/**
 What the orchestrator loop of `/ws/converse` answers to which event, and what a turn
 says about itself (speech_gateway/main.py), over every run of module Converse: the
 messages the loop has sent are, in order, those that the events it took call for.
 */
module LoopMessages {
  import opened Options
  import opened Duplex
  import opened Converse

  // ---------------------------------------------------------------------------
  // The loop

  /** What an event calls for: it depends on the phase it is taken in. */
  function Owed(v: SessionView, event: Event): seq<Message> {
    match event
    case SpeechStart => if v.phase == Listening then [] else [BargeInDetected(v.turnRef)]
    case SttFailure => [SttError]
    case FinalTranscript(lowConfidence) =>
      if v.phase != Listening then [] else if lowConfidence then [Clarify] else [TranscriptFinal]
    case Ignored => []
    case StreamEnded => []
  }

  function OwedAt(w: World, step: Step): seq<Message> {
    if step.Get? then Owed(w.session, step.event) else []
  }

  /** All that the events taken in the run call for, in order. */
  function OwedIn(w: World, steps: seq<Step>): seq<Message>
    requires IsRun(w, steps)
    decreases |steps|
  {
    if steps == [] then [] else OwedAt(w, steps[0]) + OwedIn(Do(w, steps[0]), steps[1..])
  }

  /** The messages of the loop, without those of the turns. */
  function FromLoop(log: seq<Message>): seq<Message> {
    if log == [] then []
    else FromLoop(log[..|log| - 1]) + (if IsTurnMessage(log[|log| - 1]) then [] else [log[|log| - 1]])
  }

  /** How many turns these messages announce, and how many barge-ins. */
  function Transcripts(ms: seq<Message>): nat {
    if ms == [] then 0 else Transcripts(ms[..|ms| - 1]) + (if ms[|ms| - 1].TranscriptFinal? then 1 else 0)
  }

  function BargeIns(ms: seq<Message>): nat {
    if ms == [] then 0 else BargeIns(ms[..|ms| - 1]) + (if ms[|ms| - 1].BargeInDetected? then 1 else 0)
  }

  /** The message the loop is about to send. */
  function Pending(pc: LoopPc): seq<Message> {
    match pc
    case SendingClarify(out) => if out then [] else [Clarify]
    case SendingSttError(out) => if out then [] else [SttError]
    case SendingTranscript(out) => if out then [] else [TranscriptFinal]
    case CancellingTurn(victim) => [BargeInDetected(victim)]
    case CancellingThink(victim) => [BargeInDetected(victim)]
    case CancellingSpeak(victim) => [BargeInDetected(victim)]
    case SendingBargeIn(out, victim) => if out then [] else [BargeInDetected(victim)]
    case _ => []
  }

  predicate Closing(pc: LoopPc) {
    pc.ClosingStt? || pc.ClosingTurn? || pc.Closed?
  }

  /** Sent and pending together are what was owed; at teardown the last one may be lost. */
  predicate Settles(loop: LoopPc, sent: seq<Message>, owed: seq<Message>) {
    || sent + Pending(loop) == owed
    || (Closing(loop) && owed != [] && sent == owed[..|owed| - 1])
  }

  /** How many turns there are, and how many barge-ins the session has recorded, for what was sent. */
  predicate Counts(loop: LoopPc, sent: seq<Message>, turns: nat, events: nat) {
    var newTurn, newEvent := loop == SendingTranscript(true), loop.SendingBargeIn? && !loop.out;
    if Closing(loop) then
      turns <= Transcripts(sent) <= turns + 1 && BargeIns(sent) <= events <= BargeIns(sent) + 1
    else
      && Transcripts(sent) == turns + (if newTurn then 1 else 0)
      && events == BargeIns(sent) + (if newEvent then 1 else 0)
  }

  predicate Agrees(w: World, owed: seq<Message>) {
    Settles(w.loop, FromLoop(w.log), owed) && Counts(w.loop, FromLoop(w.log), |w.turns|, w.session.events)
  }

  lemma FromLoopSnoc(log: seq<Message>, m: Message)
    ensures FromLoop(log + [m]) == FromLoop(log) + if IsTurnMessage(m) then [] else [m]
  {
    assert (log + [m])[..|log|] == log;
  }

  lemma CountsSnoc(ms: seq<Message>, m: Message)
    ensures Transcripts(ms + [m]) == Transcripts(ms) + if m.TranscriptFinal? then 1 else 0
    ensures BargeIns(ms + [m]) == BargeIns(ms) + if m.BargeInDetected? then 1 else 0
  {
    assert (ms + [m])[..|ms|] == ms;
  }

  /** A step leaves the log as it is, or adds one message of a turn, or the pending one. */
  predicate LogMoves(w: World, w': World) {
    || w'.log == w.log
    || (|w'.log| == |w.log| + 1 && w'.log[..|w.log|] == w.log && IsTurnMessage(w'.log[|w.log|]))
  }

  lemma QuietLog(w: World, w': World)
    requires LogMoves(w, w')
    ensures FromLoop(w'.log) == FromLoop(w.log)
  {
    if w'.log != w.log {
      assert w'.log == w.log + [w'.log[|w.log|]];
      FromLoopSnoc(w.log, w'.log[|w.log|]);
      assert FromLoop(w.log) + [] == FromLoop(w.log);
    }
  }

  lemma OtherStepsMoveLog(w: World, step: Step)
    requires Inv(w) && Enabled(w, step) && step != LoopEmit
    ensures LogMoves(w, Do(w, step))
  {
    hide Inv;
    match step {
      case TurnEmit(t) => assert (w.log + [Do(w, step).log[|w.log|]])[..|w.log|] == w.log;
      case SpeakEmits(t, textOnly) => assert (w.log + [Do(w, step).log[|w.log|]])[..|w.log|] == w.log;
      case _ =>
    }
  }

  /** What the loop's place, the turns and the counter of barge-ins become in a step that is not of the loop. */
  lemma TurnStepsLeaveLoop(w: World, step: Step)
    requires Inv(w) && Enabled(w, step)
    requires !step.Get? && !step.LoopEmit? && !step.LoopSent? && !step.LoopSendRaises? && !step.LoopResume?
    ensures var w' := Do(w, step);
      w'.loop == w.loop && |w'.turns| == |w.turns| && w'.session.events == w.session.events
  {
    hide Inv;
  }

  lemma TurnStepSettles(w: World, step: Step, owed: seq<Message>)
    requires Inv(w) && Enabled(w, step) && Agrees(w, owed)
    requires !step.Get? && !step.LoopEmit? && !step.LoopSent? && !step.LoopSendRaises? && !step.LoopResume?
    ensures Agrees(Do(w, step), owed)
  {
    hide Inv, Do, Enabled, FromLoop, Settles, Counts;
    OtherStepsMoveLog(w, step);
    QuietLog(w, Do(w, step));
    TurnStepsLeaveLoop(w, step);
  }

  /** What the loop does when it takes an event. */
  lemma EventMoves(w: World, event: Event)
    requires Inv(w) && w.loop.Waiting?
    ensures var w' := Do(w, Get(event));
      && w'.log == w.log && |w'.turns| == |w.turns|
      && Pending(w'.loop) == Owed(w.session, event) && w'.loop != SendingTranscript(true)
      && (Closing(w'.loop) <==> event.StreamEnded?)
      && w'.session.events == w.session.events + if w'.loop.SendingBargeIn? && !w'.loop.out then 1 else 0
  {
    if event == SpeechStart && w.session.phase != Listening {
      BargeInBegins(w);
    }
    hide Inv;
  }

  lemma GetSettles(w: World, event: Event, owed: seq<Message>)
    requires Inv(w) && w.loop.Waiting? && Agrees(w, owed)
    ensures Agrees(Do(w, Get(event)), owed + Owed(w.session, event))
  {
    EventMoves(w, event);
    hide Inv, Do, FromLoop, Transcripts, BargeIns, Owed;
    var sent := FromLoop(w.log);
    assert sent + [] == sent;
  }

  lemma EmitMoves(w: World)
    requires Enabled(w, LoopEmit)
    ensures var w' := Do(w, LoopEmit);
      && Pending(w.loop) == [w'.log[|w.log|]] && w'.log == w.log + Pending(w.loop) && Pending(w'.loop) == []
      && !IsTurnMessage(Pending(w.loop)[0]) && !Closing(w.loop) && !Closing(w'.loop)
      && |w'.turns| == |w.turns| && w'.session.events == w.session.events && w.loop != SendingTranscript(true)
      && (w'.loop == SendingTranscript(true) <==> Pending(w.loop)[0].TranscriptFinal?)
      && ((w.loop.SendingBargeIn? && !w.loop.out) <==> Pending(w.loop)[0].BargeInDetected?)
      && !(w'.loop.SendingBargeIn? && !w'.loop.out)
  {
  }

  lemma LoopEmitSettles(w: World, owed: seq<Message>)
    requires Inv(w) && Enabled(w, LoopEmit) && Agrees(w, owed)
    ensures Agrees(Do(w, LoopEmit), owed)
  {
    EmitMoves(w);
    hide Inv, Do, Enabled, FromLoop, Transcripts, BargeIns, Pending;
    var m := Pending(w.loop)[0];
    FromLoopSnoc(w.log, m);
    CountsSnoc(FromLoop(w.log), m);
    assert FromLoop(w.log) + [m] + [] == FromLoop(w.log) + [m];
  }

  /** What the loop does when its send ends, or the task it awaited. */
  lemma LoopMoves(w: World, step: Step)
    requires Inv(w) && Enabled(w, step) && (step.LoopSent? || step.LoopSendRaises? || step.LoopResume?)
    ensures var w' := Do(w, step);
      && w'.log == w.log && w'.loop != SendingTranscript(true)
      && |w'.turns| == |w.turns| + (if step.LoopSent? && w.loop == SendingTranscript(true) then 1 else 0)
      && w'.session.events == w.session.events + (if Cancelling(w.loop) then 1 else 0)
      && (Closing(w.loop) || step.LoopSendRaises? <==> Closing(w'.loop))
      && ((w'.loop.SendingBargeIn? && !w'.loop.out) <==> Cancelling(w.loop))
      && (Closing(w.loop) || step.LoopSent? ==> Pending(w.loop) == [])
      && (Closing(w'.loop) || step.LoopSent? ==> Pending(w'.loop) == [])
      && (Cancelling(w.loop) ==> Pending(w'.loop) == Pending(w.loop))
      && (step.LoopResume? ==> Cancelling(w.loop) || Closing(w.loop))
      && (step.LoopSent? ==> !Cancelling(w.loop) && !Closing(w.loop) && !(w.loop.SendingBargeIn? && !w.loop.out))
      && |Pending(w.loop)| <= 1
  {
    if w.loop.CancellingTurn? && step.LoopResume? {
      VictimGone(w);
    }
    hide LogOk, TurnsOk, RefsOk;
  }

  lemma StillSettles(loop: LoopPc, loop': LoopPc, sent: seq<Message>, owed: seq<Message>)
    requires Settles(loop, sent, owed) && |Pending(loop)| <= 1
    requires || (Pending(loop') == Pending(loop) && !Closing(loop))
             || (Pending(loop') == [] && Closing(loop'))
    ensures Settles(loop', sent, owed)
  {
    hide Pending, Closing;
    assert sent + [] == sent;
    assert |Pending(loop)| == 1 ==> (sent + Pending(loop))[..|sent + Pending(loop)| - 1] == sent;
  }

  lemma StillCounts(w: World, step: Step)
    requires Inv(w) && Enabled(w, step) && (step.LoopSent? || step.LoopSendRaises? || step.LoopResume?)
    requires Counts(w.loop, FromLoop(w.log), |w.turns|, w.session.events)
    ensures var w' := Do(w, step); Counts(w'.loop, FromLoop(w'.log), |w'.turns|, w'.session.events)
  {
    LoopMoves(w, step);
    hide Inv, Do, Enabled, FromLoop, Transcripts, BargeIns, Pending;
  }

  lemma LoopSettles(w: World, step: Step, owed: seq<Message>)
    requires Inv(w) && Enabled(w, step) && (step.LoopSent? || step.LoopSendRaises? || step.LoopResume?)
      && Agrees(w, owed)
    ensures Agrees(Do(w, step), owed)
  {
    LoopMoves(w, step);
    hide Inv, Do, Enabled, FromLoop, Pending, Closing, Settles, Counts;
    StillSettles(w.loop, Do(w, step).loop, FromLoop(w.log), owed);
    StillCounts(w, step);
  }

  lemma StepSettles(w: World, step: Step, owed: seq<Message>)
    requires Inv(w) && Enabled(w, step) && Agrees(w, owed)
    ensures Agrees(Do(w, step), owed + OwedAt(w, step))
  {
    hide Inv, Do, Enabled, Agrees;
    assert owed + [] == owed;
    match step {
      case Get(event) =>
        assert w.loop.Waiting? by { OnlyWaitingTakes(w, event); }
        GetSettles(w, event, owed);
      case LoopEmit => LoopEmitSettles(w, owed);
      case LoopSent => LoopSettles(w, step, owed);
      case LoopSendRaises => LoopSettles(w, step, owed);
      case LoopResume => LoopSettles(w, step, owed);
      case _ => TurnStepSettles(w, step, owed);
    }
  }

  lemma OnlyWaitingTakes(w: World, event: Event)
    requires Enabled(w, Get(event))
    ensures w.loop.Waiting?
  {
  }

  lemma {:induction false} RunSettles(w: World, steps: seq<Step>, owed: seq<Message>)
    requires Inv(w) && IsRun(w, steps) && Agrees(w, owed)
    ensures Agrees(After(w, steps), owed + OwedIn(w, steps))
    decreases |steps|
  {
    hide Inv, Do, Enabled, Agrees, OwedAt;
    if steps == [] {
      assert owed + [] == owed;
    } else {
      StepKeepsInv(w, steps[0]);
      StepSettles(w, steps[0], owed);
      RunSettles(Do(w, steps[0]), steps[1..], owed + OwedAt(w, steps[0]));
      assert owed + OwedAt(w, steps[0]) + OwedIn(Do(w, steps[0]), steps[1..])
        == owed + (OwedAt(w, steps[0]) + OwedIn(Do(w, steps[0]), steps[1..]));
    }
  }

  lemma NothingOwed()
    ensures Inv(INITIAL_WORLD) && Agrees(INITIAL_WORLD, [])
  {
  }

  lemma AgreesMeans(w: World, owed: seq<Message>)
    requires Agrees(w, owed)
    ensures var sent := FromLoop(w.log);
      && sent <= owed && |owed| <= |sent| + 1
      && |w.turns| <= Transcripts(sent) <= |w.turns| + 1
      && (w.loop.Waiting? ==> sent == owed && |w.turns| == Transcripts(owed) && w.session.events == BargeIns(owed))
  {
    hide FromLoop, Transcripts, BargeIns;
    assert FromLoop(w.log) + [] == FromLoop(w.log);
  }

  /**
   Over every run: the loop has sent, in order, what the events it took call for, but
   perhaps the last of it; and exactly that whenever it waits for the next event. Then
   there are as many turns as confident final transcripts were taken while Listening,
   and as many barge-in events as `speech_start`s in an active phase.
   */
  lemma LoopAnswersEvents(steps: seq<Step>)
    requires IsRun(INITIAL_WORLD, steps)
    ensures var w, owed := After(INITIAL_WORLD, steps), OwedIn(INITIAL_WORLD, steps); var sent := FromLoop(w.log);
      && sent <= owed && |owed| <= |sent| + 1
      && |w.turns| <= Transcripts(sent) <= |w.turns| + 1
      && (w.loop.Waiting? ==> sent == owed && |w.turns| == Transcripts(owed) && w.session.events == BargeIns(owed))
  {
    NothingOwed();
    hide Inv, INITIAL_WORLD, After, IsRun, OwedIn, Agrees;
    RunSettles(INITIAL_WORLD, steps, []);
    var w, owed := After(INITIAL_WORLD, steps), OwedIn(INITIAL_WORLD, steps);
    assert [] + owed == owed;
    AgreesMeans(w, owed);
  }

  /** An event that calls for nothing changes nothing, except that the end of the stream ends the loop. */
  lemma OtherEventsChangeNothing(w: World, event: Event)
    requires w.loop.Waiting? && Owed(w.session, event) == []
    ensures event != StreamEnded ==> Do(w, Get(event)) == w
    ensures event == StreamEnded ==> Do(w, Get(event)) == w.(loop := ClosingStt)
  {
  }

  /** Once the loop is left it takes no event any more. */
  lemma {:induction false} ClosingTakesNothing(w: World, steps: seq<Step>, k: nat)
    requires Closing(w.loop) && IsRun(w, steps) && k < |steps|
    ensures !steps[k].Get?
    decreases |steps|
  {
    assert Closing(Do(w, steps[0]).loop);
    if k > 0 {
      ClosingTakesNothing(Do(w, steps[0]), steps[1..], k - 1);
    }
  }

  // ---------------------------------------------------------------------------
  // A turn

  /** What the messages of a turn say about it. */
  predicate SaysTrue(t: Turn, u: nat, m: Message, log: seq<Message>) {
    match m
    case TurnError(v) => v == u ==> t.think == Done(BackendError)
    case AssistantText(v) =>
      v == u ==> t.think == Done(Returned) || (t.think == Done(BackendError) && TurnError(u) in log)
    case TurnComplete(v) => v == u ==> t.speak == Done(Returned)
    case _ => true
  }

  /** What a turn must have said to be where it is. */
  predicate HasSaid(t: Turn, u: nat, log: seq<Message>) {
    && (t.pc == SendingError(true) ==> TurnError(u) in log)
    && (t.pc.SendingError? ==> t.think == Done(BackendError))
    && (t.pc.SendingText? ==> t.think == Done(Returned) || (t.think == Done(BackendError) && TurnError(u) in log))
    && (t.pc == SendingText(true) || t.pc.AwaitingSpeak? || t.pc.SendingComplete? ==> AssistantText(u) in log)
    && (t.pc == SendingComplete(true) ==> TurnComplete(u) in log)
  }

  ghost predicate TurnsSayTrue(w: World) {
    && (forall u | 0 <= u < |w.turns| :: HasSaid(w.turns[u], u, w.log))
    && (forall i | 0 <= i < |w.log| && IsTurnMessage(w.log[i]) ::
          w.log[i].turn < |w.turns| && SaysTrue(w.turns[w.log[i].turn], w.log[i].turn, w.log[i], w.log))
  }

  /** What becomes of one turn and the log in a step: its settled subtasks stay, and its words are true. */
  predicate Keeps(t: Turn, t': Turn) {
    && (t.think.Done? ==> t'.think == t.think)
    && (t.speak.Done? ==> t'.speak == t.speak)
  }

  lemma SaysTrueLater(t: Turn, t': Turn, u: nat, m: Message, log: seq<Message>, log': seq<Message>)
    requires SaysTrue(t, u, m, log) && Keeps(t, t') && log <= log'
    ensures SaysTrue(t', u, m, log')
  {
    assert forall x | x in log :: x in log' by {
      forall x | x in log ensures x in log' {
        var i :| 0 <= i < |log| && log[i] == x;
        assert log'[i] == x;
      }
    }
  }

  /** A step in which every turn keeps what it settled, what it must have said holds, and a new message is true. */
  lemma StillTrue(w: World, w': World)
    requires TurnsSayTrue(w) && |w.turns| <= |w'.turns| && w.log <= w'.log && |w'.log| <= |w.log| + 1
    requires forall u | 0 <= u < |w.turns| :: Keeps(w.turns[u], w'.turns[u])
    requires forall u | 0 <= u < |w'.turns| :: HasSaid(w'.turns[u], u, w'.log)
    requires |w'.log| > |w.log| && IsTurnMessage(w'.log[|w.log|]) ==>
      var m := w'.log[|w.log|]; m.turn < |w'.turns| && SaysTrue(w'.turns[m.turn], m.turn, m, w'.log)
    ensures TurnsSayTrue(w')
  {
    hide SaysTrue, HasSaid, Keeps;
    forall i | 0 <= i < |w'.log| && IsTurnMessage(w'.log[i])
      ensures w'.log[i].turn < |w'.turns| && SaysTrue(w'.turns[w'.log[i].turn], w'.log[i].turn, w'.log[i], w'.log)
    {
      if i < |w.log| {
        assert w'.log[i] == w.log[i];
        var u := w.log[i].turn;
        SaysTrueLater(w.turns[u], w'.turns[u], u, w.log[i], w.log, w'.log);
      }
    }
  }

  lemma HasSaidLater(t: Turn, u: nat, log: seq<Message>, m: Message)
    requires HasSaid(t, u, log)
    ensures HasSaid(t, u, log + [m])
  {
  }

  lemma QuietStaysTrue(w: World, step: Step)
    requires Inv(w) && TurnsSayTrue(w) && Enabled(w, step)
    requires !step.LoopEmit? && !step.TurnEmit? && !step.SpeakEmits?
    ensures TurnsSayTrue(Do(w, step))
  {
    hide LogOk, RefsOk;
    var w' := Do(w, step);
    SettledStay(w, step);
    QuietHasSaid(w, step);
    hide Inv, Do, Enabled, SaysTrue, HasSaid, Keeps, TurnsSayTrue;
    StillTrue(w, w');
  }

  lemma SettledStay(w: World, step: Step)
    requires Inv(w) && Enabled(w, step)
    ensures |w.turns| <= |Do(w, step).turns|
    ensures forall u | 0 <= u < |w.turns| :: Keeps(w.turns[u], Do(w, step).turns[u])
  {
    hide LogOk, RefsOk, LoopOk;
    if step.Get? || step.LoopSent? || step.LoopSendRaises? || step.LoopResume? || step.LoopEmit? {
      hide TurnsOk;
    } else {
      assert TurnConsistent(w.turns[step.turn]);
      hide TurnsOk;
      OneTurnSettles(w, step);
    }
  }

  lemma OneTurnSettles(w: World, step: Step)
    requires Enabled(w, step)
    requires !step.Get? && !step.LoopSent? && !step.LoopSendRaises? && !step.LoopResume? && !step.LoopEmit?
    requires TurnConsistent(w.turns[step.turn])
    ensures var w' := Do(w, step); w'.turns == w.turns[step.turn := w'.turns[step.turn]]
    ensures Keeps(w.turns[step.turn], Do(w, step).turns[step.turn])
  {
  }

  lemma QuietHasSaid(w: World, step: Step)
    requires Inv(w) && TurnsSayTrue(w) && Enabled(w, step)
    requires !step.LoopEmit? && !step.TurnEmit? && !step.SpeakEmits?
    ensures Do(w, step).log == w.log
    ensures forall u | 0 <= u < |Do(w, step).turns| :: HasSaid(Do(w, step).turns[u], u, w.log)
  {
    hide Inv, Do, Enabled, HasSaid, SaysTrue;
    var w' := Do(w, step);
    if step.Get? || step.LoopSent? || step.LoopSendRaises? || step.LoopResume? {
      LoopKeepsPlaces(w, step);
      forall u | 0 <= u < |w'.turns| ensures HasSaid(w'.turns[u], u, w.log) {
        if u < |w.turns| {
          SamePlace(w.turns[u], w'.turns[u], u, w.log);
        } else {
          NewTurnSaidNothing(w'.turns[u], u, w.log);
        }
      }
    } else {
      TurnMovesQuietly(w, step);
    }
  }

  lemma LoopKeepsPlaces(w: World, step: Step)
    requires Enabled(w, step) && (step.Get? || step.LoopSent? || step.LoopSendRaises? || step.LoopResume?)
    ensures var w' := Do(w, step);
      && w'.log == w.log && |w.turns| <= |w'.turns| <= |w.turns| + 1
      && (forall u | 0 <= u < |w.turns| ::
            w'.turns[u].pc == w.turns[u].pc && (w.turns[u].think.Done? ==> w'.turns[u].think == w.turns[u].think))
      && (forall u | |w.turns| <= u < |w'.turns| :: w'.turns[u].pc.NotStarted?)
  {
  }

  lemma SamePlace(t: Turn, t': Turn, u: nat, log: seq<Message>)
    requires HasSaid(t, u, log) && t'.pc == t.pc && (t.think.Done? ==> t'.think == t.think)
    ensures HasSaid(t', u, log)
  {
  }

  lemma NewTurnSaidNothing(t: Turn, u: nat, log: seq<Message>)
    requires t.pc.NotStarted?
    ensures HasSaid(t, u, log)
  {
  }

  lemma TurnMovesQuietly(w: World, step: Step)
    requires Inv(w) && Enabled(w, step) && forall u | 0 <= u < |w.turns| :: HasSaid(w.turns[u], u, w.log)
    requires step.TurnStart? || step.TurnSent? || step.TurnSendRaises? || step.TurnResume? || step.TurnCancelled?
      || step.ThinkEnds? || step.SpeakEnds?
    ensures Do(w, step).log == w.log
    ensures forall u | 0 <= u < |Do(w, step).turns| :: HasSaid(Do(w, step).turns[u], u, w.log)
  {
    hide LogOk, RefsOk, LoopOk, HasSaid;
    var t, w' := step.turn, Do(w, step);
    assert TurnConsistent(w.turns[t]) && w'.turns == w.turns[t := w'.turns[t]];
    OneTurnHasSaid(w, step);
  }

  lemma OneTurnHasSaid(w: World, step: Step)
    requires Inv(w) && Enabled(w, step)
    requires step.TurnStart? || step.TurnSent? || step.TurnSendRaises? || step.TurnResume? || step.TurnCancelled?
      || step.ThinkEnds? || step.SpeakEnds?
    requires HasSaid(w.turns[step.turn], step.turn, w.log)
    ensures HasSaid(Do(w, step).turns[step.turn], step.turn, w.log)
  {
    hide LogOk, RefsOk, LoopOk;
    assert TurnConsistent(w.turns[step.turn]);
  }

  lemma EmitStaysTrue(w: World, step: Step)
    requires Inv(w) && TurnsSayTrue(w) && Enabled(w, step) && (step.LoopEmit? || step.TurnEmit? || step.SpeakEmits?)
    ensures TurnsSayTrue(Do(w, step))
  {
    hide LogOk, RefsOk, LoopOk;
    var w' := Do(w, step);
    var m := w'.log[|w.log|];
    assert w'.log == w.log + [m];
    forall u | 0 <= u < |w'.turns| ensures HasSaid(w'.turns[u], u, w'.log) {
      assert HasSaid(w.turns[u], u, w.log) && TurnConsistent(w.turns[u]);
      HasSaidLater(w.turns[u], u, w.log, m);
    }
    SettledStay(w, step);
    hide Inv, HasSaid, Keeps;
    if IsTurnMessage(m) {
      EmittedIsTrue(w, step);
    }
    StillTrue(w, w');
  }

  lemma EmittedIsTrue(w: World, step: Step)
    requires Inv(w) && TurnsSayTrue(w) && Enabled(w, step) && (step.TurnEmit? || step.SpeakEmits?)
    ensures var w' := Do(w, step); var m := w'.log[|w.log|];
      |w'.turns| == |w.turns| && m.turn < |w.turns| && SaysTrue(w'.turns[m.turn], m.turn, m, w'.log)
  {
    hide LogOk, RefsOk, LoopOk;
    var t := step.turn;
    assert HasSaid(w.turns[t], t, w.log) && TurnConsistent(w.turns[t]);
  }

  lemma {:induction false} RunStaysTrue(w: World, steps: seq<Step>)
    requires Inv(w) && TurnsSayTrue(w) && IsRun(w, steps)
    ensures TurnsSayTrue(After(w, steps))
    decreases |steps|
  {
    hide Inv, Do, Enabled, TurnsSayTrue;
    if steps != [] {
      StepKeepsInv(w, steps[0]);
      if steps[0].LoopEmit? || steps[0].TurnEmit? || steps[0].SpeakEmits? {
        EmitStaysTrue(w, steps[0]);
      } else {
        QuietStaysTrue(w, steps[0]);
      }
      RunStaysTrue(Do(w, steps[0]), steps[1..]);
    }
  }

  /**
   Over every run: an error is reported only by a turn whose backend call failed, and
   such a turn shows its text only after it; a text otherwise means a reply; and a turn is
   reported complete only if its speech returned. A turn that speaks has shown its text,
   and one whose last send has left has said so.
   */
  lemma TurnsSayWhatIsTrue(steps: seq<Step>, u: nat)
    requires IsRun(INITIAL_WORLD, steps) && u < |After(INITIAL_WORLD, steps).turns|
    ensures var w := After(INITIAL_WORLD, steps); var t := w.turns[u];
      && HasSaid(t, u, w.log)
      && (TurnError(u) in w.log ==> t.think == Done(BackendError))
      && (AssistantText(u) in w.log ==>
            t.think == Done(Returned) || (t.think == Done(BackendError) && TurnError(u) in w.log))
      && (TurnComplete(u) in w.log ==> t.speak == Done(Returned))
  {
    assert TurnsSayTrue(INITIAL_WORLD) && Inv(INITIAL_WORLD);
    hide Inv, INITIAL_WORLD, After, IsRun, HasSaid;
    RunStaysTrue(INITIAL_WORLD, steps);
    MeansTrue(After(INITIAL_WORLD, steps), u);
  }

  lemma MeansTrue(w: World, u: nat)
    requires TurnsSayTrue(w) && u < |w.turns|
    ensures var t := w.turns[u];
      && HasSaid(t, u, w.log)
      && (TurnError(u) in w.log ==> t.think == Done(BackendError))
      && (AssistantText(u) in w.log ==>
            t.think == Done(Returned) || (t.think == Done(BackendError) && TurnError(u) in w.log))
      && (TurnComplete(u) in w.log ==> t.speak == Done(Returned))
  {
    hide HasSaid;
    var t := w.turns[u];
    forall i | 0 <= i < |w.log| && IsTurnMessage(w.log[i]) && w.log[i].turn == u
      ensures SaysTrue(t, u, w.log[i], w.log)
    {
    }
  }

  // ---------------------------------------------------------------------------
  // What is spoken

  /** The turn's speech in the log: each piece of audio, or the text-only fallback. */
  function Spoken(log: seq<Message>, u: nat): seq<bool> {
    if log == [] then []
    else
      var m := log[|log| - 1];
      Spoken(log[..|log| - 1], u)
      + (if m == Audio(u) then [false] else if m == TextOnlyFallback(u) then [true] else [])
  }

  /** What the speak task of the turn gave in the run. */
  function GivenBy(steps: seq<Step>, u: nat): seq<bool> {
    if steps == [] then []
    else (if steps[0].SpeakEmits? && steps[0].turn == u then [steps[0].textOnly] else []) + GivenBy(steps[1..], u)
  }

  lemma SpokenSnoc(log: seq<Message>, m: Message, u: nat)
    ensures Spoken(log + [m], u)
      == Spoken(log, u) + if m == Audio(u) then [false] else if m == TextOnlyFallback(u) then [true] else []
  {
    assert (log + [m])[..|log|] == log;
  }

  lemma SpeechOnlyFromSpeak(w: World, step: Step)
    requires Enabled(w, step)
    ensures Do(w, step).log == w.log || Do(w, step).log == w.log + [Do(w, step).log[|w.log|]]
    ensures step.SpeakEmits? ==> Do(w, step).log != w.log
    ensures step.SpeakEmits? ==>
      Do(w, step).log == w.log + [if step.textOnly then TextOnlyFallback(step.turn) else Audio(step.turn)]
    ensures !step.SpeakEmits? && Do(w, step).log != w.log ==>
      !Do(w, step).log[|w.log|].Audio? && !Do(w, step).log[|w.log|].TextOnlyFallback?
  {
  }

  lemma SpokenStep(w: World, step: Step, u: nat)
    requires Inv(w) && Enabled(w, step)
    ensures Spoken(Do(w, step).log, u)
      == Spoken(w.log, u) + if step.SpeakEmits? && step.turn == u then [step.textOnly] else []
  {
    SpeechOnlyFromSpeak(w, step);
    hide Inv, Do, Enabled, Spoken;
    if Do(w, step).log == w.log {
      assert Spoken(w.log, u) + [] == Spoken(w.log, u);
    } else {
      SpokenSnoc(w.log, Do(w, step).log[|w.log|], u);
    }
  }

  /** Everything the speak task gives is sent, in order, as it was given. */
  lemma {:induction false} SpeechIsSent(w: World, steps: seq<Step>, u: nat)
    requires Inv(w) && IsRun(w, steps)
    ensures Spoken(After(w, steps).log, u) == Spoken(w.log, u) + GivenBy(steps, u)
    decreases |steps|
  {
    hide Inv, Do, Enabled, Spoken;
    if steps == [] {
      assert Spoken(w.log, u) + [] == Spoken(w.log, u);
    } else {
      StepKeepsInv(w, steps[0]);
      SpokenStep(w, steps[0], u);
      SpeechIsSent(Do(w, steps[0]), steps[1..], u);
      var given := if steps[0].SpeakEmits? && steps[0].turn == u then [steps[0].textOnly] else [];
      assert Spoken(w.log, u) + given + GivenBy(steps[1..], u) == Spoken(w.log, u) + (given + GivenBy(steps[1..], u));
    }
  }

  // ---------------------------------------------------------------------------
  // The session

  /** Where the newest turn is, as the session shows it while no barge-in is under way. */
  predicate PhaseOk(w: World) {
    && (forall u | 0 <= u < |w.turns| && Unfinished(w.turns[u]) && !Cancelling(w.loop) ::
          && (w.session.phase == Speaking <==> w.turns[u].pc.AwaitingSpeak?)
          && (w.session.phase == Thinking <==> !w.turns[u].pc.AwaitingSpeak?))
    && (forall u | 0 <= u < |w.turns| && Unfinished(w.turns[u]) ::
          && (w.session.thinkRef == if w.turns[u].pc.NotStarted? then None else Some(u))
          && (w.session.speakRef == if w.turns[u].pc.AwaitingSpeak? then Some(u) else None))
  }

  lemma StepKeepsPhase(w: World, step: Step)
    requires Inv(w) && PhaseOk(w) && Enabled(w, step)
    ensures PhaseOk(Do(w, step))
  {
    hide LogOk;
    if step.Get? || step.LoopSent? || step.LoopSendRaises? || step.LoopResume? || step.LoopEmit? {
      LoopKeepsPhase(w, step);
    } else {
      TurnKeepsPhase(w, step);
    }
  }

  lemma LoopKeepsPhase(w: World, step: Step)
    requires Inv(w) && PhaseOk(w) && Enabled(w, step)
    requires step.Get? || step.LoopSent? || step.LoopSendRaises? || step.LoopResume? || step.LoopEmit?
    ensures PhaseOk(Do(w, step))
  {
    hide LogOk;
    if step.LoopResume? {
      ResumeKeepsPhase(w);
    } else if step.Get? {
      GetKeepsPhase(w, step.event);
    }
  }

  lemma ResumeKeepsPhase(w: World)
    requires Inv(w) && PhaseOk(w) && Enabled(w, LoopResume)
    ensures PhaseOk(Do(w, LoopResume))
  {
    hide LogOk;
    if w.loop.CancellingTurn? {
      VictimGone(w);
    }
  }

  lemma GetKeepsPhase(w: World, event: Event)
    requires Inv(w) && PhaseOk(w) && Enabled(w, Get(event))
    ensures PhaseOk(Do(w, Get(event)))
  {
    hide LogOk;
    if event == SpeechStart && w.session.phase != Listening {
      BargeInBegins(w);
    }
  }

  lemma TurnKeepsPhase(w: World, step: Step)
    requires Inv(w) && PhaseOk(w) && Enabled(w, step)
    requires !step.Get? && !step.LoopSent? && !step.LoopSendRaises? && !step.LoopResume? && !step.LoopEmit?
    ensures PhaseOk(Do(w, step))
  {
    hide LogOk, LoopOk;
    var t, w' := step.turn, Do(w, step);
    assert TurnConsistent(w.turns[t]);
    if Unfinished(w.turns[t]) {
      OwnStepKeepsPhase(w, step);
    } else {
      FinishedLeavesSession(w, step);
    }
  }

  lemma FinishedLeavesSession(w: World, step: Step)
    requires Enabled(w, step) && PhaseOk(w)
    requires !step.Get? && !step.LoopSent? && !step.LoopSendRaises? && !step.LoopResume? && !step.LoopEmit?
    requires !Unfinished(w.turns[step.turn])
    ensures PhaseOk(Do(w, step))
  {
    var t, w' := step.turn, Do(w, step);
    assert w'.session == w.session && w'.loop == w.loop && !Unfinished(w'.turns[t]);
    assert w'.turns == w.turns[t := w'.turns[t]];
  }

  lemma OwnStepKeepsPhase(w: World, step: Step)
    requires Inv(w) && Enabled(w, step) && PhaseOk(w)
    requires !step.Get? && !step.LoopSent? && !step.LoopSendRaises? && !step.LoopResume? && !step.LoopEmit?
    requires Unfinished(w.turns[step.turn])
    ensures PhaseOk(Do(w, step))
  {
    hide LogOk, LoopOk;
    var t, w' := step.turn, Do(w, step);
    assert w'.turns == w.turns[t := w'.turns[t]] && w'.loop == w.loop;
    assert forall u | 0 <= u < |w.turns| && u != t :: !Unfinished(w.turns[u]);
    assert TurnConsistent(w.turns[t]);
    hide TurnsOk, RefsOk;
  }

  lemma {:induction false} RunKeepsPhase(w: World, steps: seq<Step>)
    requires Inv(w) && PhaseOk(w) && IsRun(w, steps)
    ensures PhaseOk(After(w, steps))
    decreases |steps|
  {
    hide Inv, Do, Enabled, PhaseOk;
    if steps != [] {
      StepKeepsInv(w, steps[0]);
      StepKeepsPhase(w, steps[0]);
      RunKeepsPhase(Do(w, steps[0]), steps[1..]);
    }
  }

  /**
   In every reachable state an unfinished turn is where the session says: it thinks, or
   shows its answer, under THINKING, and speaks under SPEAKING, with its tasks
   registered from the moment they are made; only while a barge-in waits for it can the
   phase lag behind.
   */
  lemma PhaseTellsTheTurn(steps: seq<Step>, u: nat)
    requires IsRun(INITIAL_WORLD, steps) && u < |After(INITIAL_WORLD, steps).turns|
    requires Unfinished(After(INITIAL_WORLD, steps).turns[u])
    ensures var w := After(INITIAL_WORLD, steps); var pc := w.turns[u].pc;
      && (!Cancelling(w.loop) ==> w.session.phase == if pc.AwaitingSpeak? then Speaking else Thinking)
      && (w.session.thinkRef == if pc.NotStarted? then None else Some(u))
      && (w.session.speakRef == if pc.AwaitingSpeak? then Some(u) else None)
  {
    assert PhaseOk(INITIAL_WORLD) && Inv(INITIAL_WORLD);
    hide Inv, INITIAL_WORLD, After, IsRun;
    RunKeepsPhase(INITIAL_WORLD, steps);
  }

  /** The token is cancelled while a barge-in waits for a turn that is still registered. */
  predicate TokenOk(w: World) {
    w.session.tokenCancelled <==> w.loop.CancellingTurn? && w.session.turnRef.Some?
  }

  lemma StepKeepsToken(w: World, step: Step)
    requires Inv(w) && TokenOk(w) && Enabled(w, step)
    ensures TokenOk(Do(w, step))
  {
    hide LogOk;
    match step {
      case Get(event) =>
        if event == SpeechStart && w.session.phase != Listening {
          BargeInBegins(w);
        }
      case LoopResume =>
        if w.loop.CancellingTurn? {
          VictimGone(w);
        }
      case TurnSent(t) => hide LoopOk;
      case TurnResume(t) => hide LoopOk;
      case _ =>
    }
  }

  lemma {:induction false} RunKeepsToken(w: World, steps: seq<Step>)
    requires Inv(w) && TokenOk(w) && IsRun(w, steps)
    ensures TokenOk(After(w, steps))
    decreases |steps|
  {
    hide Inv, Do, Enabled, TokenOk;
    if steps != [] {
      StepKeepsInv(w, steps[0]);
      StepKeepsToken(w, steps[0]);
      RunKeepsToken(Do(w, steps[0]), steps[1..]);
    }
  }

  /**
   In every reachable state the session's token is cancelled exactly while a barge-in
   waits for a turn that has not finished meanwhile: before and after there is a fresh
   one.
   */
  lemma TokenTellsTheBargeIn(steps: seq<Step>)
    requires IsRun(INITIAL_WORLD, steps)
    ensures var w := After(INITIAL_WORLD, steps);
      w.session.tokenCancelled <==> w.loop.CancellingTurn? && w.session.turnRef.Some?
  {
    assert TokenOk(INITIAL_WORLD) && Inv(INITIAL_WORLD);
    hide Inv, INITIAL_WORLD, After, IsRun;
    RunKeepsToken(INITIAL_WORLD, steps);
  }

  /** A turn, cancelled: the subtask it runs is asked to stop, or, if it runs none, the turn is. */
  function AskedToStop(t: Turn): Turn {
    if t.think.Running? then t.(think := Running(true))
    else if t.speak.Running? then t.(speak := Running(true))
    else t.(cancelling := true)
  }

  /**
   A barge-in, and the teardown of the socket, reach the newest turn unless it has
   ended: from any reachable state it alone is asked to stop, and the loop waits for it.
   */
  lemma CancelReachesTheTask(steps: seq<Step>, step: Step)
    requires IsRun(INITIAL_WORLD, steps) && Enabled(After(INITIAL_WORLD, steps), step)
    requires var w := After(INITIAL_WORLD, steps);
      || (step == LoopResume && w.loop.ClosingStt?)
      || (step == Get(SpeechStart) && w.session.phase != Listening && w.session.turnRef.Some?)
    requires var turns := After(INITIAL_WORLD, steps).turns; turns != [] && !turns[|turns| - 1].pc.Ended?
    ensures var w := After(INITIAL_WORLD, steps); var w' := Do(w, step); var t := |w.turns| - 1;
      && w'.turns == w.turns[t := AskedToStop(w.turns[t])]
      && w'.loop == if step.Get? then CancellingTurn(Some(t)) else ClosingTurn
  {
    var w := After(INITIAL_WORLD, steps);
    RunKeepsInv(INITIAL_WORLD, steps);
    hide After, IsRun, INITIAL_WORLD, LogOk;
    assert TurnConsistent(w.turns[|w.turns| - 1]);
    if step.Get? {
      BargeInBegins(w);
    }
  }
}
