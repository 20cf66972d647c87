/**
 The full-duplex turn protocol of `/ws/converse` (speech_gateway/main.py) as a step
 system: the orchestrator loop, one task per turn, and each turn's think and speak
 subtasks; a step runs one task from one await to the next.
 */
module Converse {
  import opened Options
  import opened Duplex

  datatype Outcome = Returned | BackendError | Raised | WasCancelled

  /** A think or speak task of one turn. */
  datatype Subtask = NotCreated | Running(cancelling: bool) | Done(outcome: Outcome)

  /** Where a turn task is suspended; `out` says that the message being sent has left. */
  datatype TurnPc =
    | NotStarted
    | AwaitingThink
    | SendingError(out: bool)
    | SendingText(out: bool)
    | AwaitingSpeak
    | SendingComplete(out: bool)
    | Ended

  datatype Turn = Turn(pc: TurnPc, cancelling: bool, think: Subtask, speak: Subtask)

  /** Where the orchestrator loop is suspended. */
  datatype LoopPc =
    | Waiting
    | SendingClarify(out: bool)
    | SendingSttError(out: bool)
    | SendingTranscript(out: bool)
    | CancellingTurn(victim: Option<nat>)
    | CancellingThink(victim: Option<nat>)
    | CancellingSpeak(victim: Option<nat>)
    | SendingBargeIn(out: bool, victim: Option<nat>)
    | ClosingStt
    | ClosingTurn
    | Closed

  datatype Message =
    | Clarify
    | SttError
    | TranscriptFinal
    | BargeInDetected(victim: Option<nat>)
    | TurnError(turn: nat)
    | AssistantText(turn: nat)
    | Audio(turn: nat)
    | TextOnlyFallback(turn: nat)
    | TurnComplete(turn: nat)

  datatype World = World(loop: LoopPc, session: SessionView, turns: seq<Turn>, log: seq<Message>)

  const INITIAL_WORLD := World(Waiting, INITIAL_VIEW, [], [])

  datatype Event = SpeechStart | SttFailure | FinalTranscript(lowConfidence: bool) | Ignored | StreamEnded

  datatype Step =
    | Get(event: Event)                       // the loop takes an event off the queue
    | LoopEmit                                // the message the loop is sending leaves
    | LoopSent                                // the loop's send returns
    | LoopSendRaises                          // the loop's send fails: teardown
    | LoopResume                              // the task the loop awaits is done
    | TurnStart(turn: nat)
    | TurnEmit(turn: nat)
    | TurnSent(turn: nat)
    | TurnSendRaises(turn: nat)
    | TurnResume(turn: nat)                   // the subtask the turn awaits is done
    | TurnCancelled(turn: nat)                // cancellation delivered outside a subtask await
    | ThinkEnds(turn: nat, outcome: Outcome)
    | SpeakEmits(turn: nat, textOnly: bool)
    | SpeakEnds(turn: nat, outcome: Outcome)

  // ---------------------------------------------------------------------------
  // Cancelling

  /**
   task.cancel() on a turn: passed on to the subtask it awaits while that runs, and
   else delivered to the turn itself. A turn whose subtask swallows it goes on.
   */
  function RequestCancel(t: Turn): Turn {
    if t.pc.AwaitingThink? && t.think.Running? then t.(think := Running(true))
    else if t.pc.AwaitingSpeak? && t.speak.Running? then t.(speak := Running(true))
    else t.(cancelling := true)
  }

  predicate TurnDone(w: World, t: nat) {
    t < |w.turns| ==> w.turns[t].pc.Ended?
  }

  /** handle_vad_speech_start from its first _cancel_and_await on. */
  function CancelTurn(w: World, victim: Option<nat>): World {
    match w.session.turnRef
    case Some(t) =>
      if TurnDone(w, t) then CancelThink(w, victim)
      else w.(loop := CancellingTurn(victim), turns := w.turns[t := RequestCancel(w.turns[t])])
    case None => CancelThink(w, victim)
  }

  function CancelThink(w: World, victim: Option<nat>): World {
    match w.session.thinkRef
    case Some(t) =>
      if t < |w.turns| && w.turns[t].think.Running?
      then w.(loop := CancellingThink(victim), turns := w.turns[t := w.turns[t].(think := Running(true))])
      else CancelSpeak(w, victim)
    case None => CancelSpeak(w, victim)
  }

  function CancelSpeak(w: World, victim: Option<nat>): World {
    match w.session.speakRef
    case Some(t) =>
      if t < |w.turns| && w.turns[t].speak.Running?
      then w.(loop := CancellingSpeak(victim), turns := w.turns[t := w.turns[t].(speak := Running(true))])
      else BargedIn(w, victim)
    case None => BargedIn(w, victim)
  }

  function BargedIn(w: World, victim: Option<nat>): World {
    w.(loop := SendingBargeIn(false, victim), session := EndBargeIn(w.session))
  }

  // ---------------------------------------------------------------------------
  // Steps

  predicate LoopSending(pc: LoopPc) {
    pc.SendingClarify? || pc.SendingSttError? || pc.SendingTranscript? || pc.SendingBargeIn?
  }

  predicate TurnSending(pc: TurnPc) {
    pc.SendingError? || pc.SendingText? || pc.SendingComplete?
  }

  predicate Enabled(w: World, step: Step) {
    match step
    case Get(_) => w.loop.Waiting?
    case LoopEmit => LoopSending(w.loop) && !w.loop.out
    case LoopSent => LoopSending(w.loop) && w.loop.out
    case LoopSendRaises => LoopSending(w.loop)
    case LoopResume =>
      (match w.loop
       case CancellingTurn(victim) => victim.Some? ==> TurnDone(w, victim.value)
       case CancellingThink(_) =>
         !(w.session.thinkRef.Some? && w.session.thinkRef.value < |w.turns|
           && w.turns[w.session.thinkRef.value].think.Running?)
       case CancellingSpeak(_) =>
         !(w.session.speakRef.Some? && w.session.speakRef.value < |w.turns|
           && w.turns[w.session.speakRef.value].speak.Running?)
       case ClosingStt => true
       case ClosingTurn => |w.turns| > 0 ==> TurnDone(w, |w.turns| - 1)
       case _ => false)
    case TurnStart(t) => t < |w.turns| && w.turns[t].pc.NotStarted? && !w.turns[t].cancelling
    case TurnEmit(t) => t < |w.turns| && TurnSending(w.turns[t].pc) && !w.turns[t].pc.out && !w.turns[t].cancelling
    case TurnSent(t) => t < |w.turns| && TurnSending(w.turns[t].pc) && w.turns[t].pc.out && !w.turns[t].cancelling
    case TurnSendRaises(t) => t < |w.turns| && TurnSending(w.turns[t].pc) && !w.turns[t].cancelling
    case TurnResume(t) =>
      && t < |w.turns|
      && ((w.turns[t].pc.AwaitingThink? && w.turns[t].think.Done?)
            || (w.turns[t].pc.AwaitingSpeak? && w.turns[t].speak.Done?))
    case TurnCancelled(t) =>
      t < |w.turns| && w.turns[t].cancelling && (w.turns[t].pc.NotStarted? || TurnSending(w.turns[t].pc))
    // cancelled or not, a subtask may go on, and may end in any way
    case ThinkEnds(t, _) => t < |w.turns| && w.turns[t].think.Running?
    case SpeakEmits(t, _) => t < |w.turns| && w.turns[t].speak.Running?
    case SpeakEnds(t, _) => t < |w.turns| && w.turns[t].speak.Running?
  }

  function Goto(w: World, t: nat, pc: TurnPc): World
    requires t < |w.turns|
  {
    w.(turns := w.turns[t := w.turns[t].(pc := pc)])
  }

  function Say(w: World, m: Message): World {
    w.(log := w.log + [m])
  }

  function OnEvent(w: World, event: Event): World {
    match event
    case StreamEnded => w.(loop := ClosingStt)
    case SpeechStart =>
      if w.session.phase == Listening then w
      else CancelTurn(w.(session := BeginBargeIn(w.session)), w.session.turnRef)
    case SttFailure => w.(loop := SendingSttError(false))
    case Ignored => w
    case FinalTranscript(low) =>
      if w.session.phase != Listening then w
      else if low then w.(loop := SendingClarify(false))
      else w.(loop := SendingTranscript(false))
  }

  function OnLoopEmit(w: World): World
    requires Enabled(w, LoopEmit)
  {
    match w.loop
    case SendingClarify(_) => Say(w, Clarify).(loop := SendingClarify(true))
    case SendingSttError(_) => Say(w, SttError).(loop := SendingSttError(true))
    case SendingTranscript(_) => Say(w, TranscriptFinal).(loop := SendingTranscript(true))
    case SendingBargeIn(_, v) => Say(w, BargeInDetected(v)).(loop := SendingBargeIn(true, v))
  }

  /** After transcript_final is sent the turn is created, and its phase and handle set, in one step. */
  function OnLoopSent(w: World): World {
    if w.loop.SendingTranscript? then
      w.(loop := Waiting,
         session := Register(EnterPhase(w.session, Thinking), |w.turns|),
         turns := w.turns + [Turn(NotStarted, false, NotCreated, NotCreated)])
    else
      w.(loop := Waiting)
  }

  function OnLoopResume(w: World): World {
    match w.loop
    case CancellingTurn(v) => CancelThink(w, v)
    case CancellingThink(v) => CancelSpeak(w, v)
    case CancellingSpeak(v) => BargedIn(w, v)
    case ClosingStt =>
      if |w.turns| == 0 || w.turns[|w.turns| - 1].pc.Ended? then w.(loop := Closed)
      else w.(loop := ClosingTurn, turns := w.turns[|w.turns| - 1 := RequestCancel(w.turns[|w.turns| - 1])])
    case _ => w.(loop := Closed)
  }

  function OnTurnEmit(w: World, t: nat): World
    requires Enabled(w, TurnEmit(t))
  {
    match w.turns[t].pc
    case SendingError(_) => Say(Goto(w, t, SendingError(true)), TurnError(t))
    case SendingText(_) => Say(Goto(w, t, SendingText(true)), AssistantText(t))
    case SendingComplete(_) => Say(Goto(w, t, SendingComplete(true)), TurnComplete(t))
  }

  function OnTurnSent(w: World, t: nat): World
    requires Enabled(w, TurnSent(t))
  {
    match w.turns[t].pc
    case SendingError(_) => Goto(w, t, SendingText(false))
    case SendingText(_) =>
      w.(session := StartSpeaking(w.session, t),
         turns := w.turns[t := w.turns[t].(pc := AwaitingSpeak, speak := Running(false))])
    case SendingComplete(_) => Goto(w, t, Ended)
  }

  function OnTurnResume(w: World, t: nat): World
    requires Enabled(w, TurnResume(t))
  {
    var turn := w.turns[t];
    if turn.cancelling then Goto(w, t, Ended)
    else if turn.pc.AwaitingThink? then
      match turn.think.outcome
      case Returned => Goto(w, t, SendingText(false))
      case BackendError => Goto(w, t, SendingError(false))
      case _ => Goto(w, t, Ended)
    else if turn.speak.outcome.Returned? then
      Goto(w, t, SendingComplete(false)).(session := FinishTurn(w.session))
    else Goto(w, t, Ended)
  }

  function Do(w: World, step: Step): World
    requires Enabled(w, step)
  {
    match step
    case Get(event) => OnEvent(w, event)
    case LoopEmit => OnLoopEmit(w)
    case LoopSent => OnLoopSent(w)
    case LoopSendRaises => w.(loop := ClosingStt)
    case LoopResume => OnLoopResume(w)
    case TurnStart(t) =>
      w.(session := StartThinking(w.session, t),
         turns := w.turns[t := w.turns[t].(pc := AwaitingThink, think := Running(false))])
    case TurnEmit(t) => OnTurnEmit(w, t)
    case TurnSent(t) => OnTurnSent(w, t)
    case TurnSendRaises(t) => Goto(w, t, Ended)
    case TurnResume(t) => OnTurnResume(w, t)
    case TurnCancelled(t) => Goto(w, t, Ended)
    case ThinkEnds(t, outcome) => w.(turns := w.turns[t := w.turns[t].(think := Done(outcome))])
    case SpeakEmits(t, textOnly) => Say(w, if textOnly then TextOnlyFallback(t) else Audio(t))
    case SpeakEnds(t, outcome) => w.(turns := w.turns[t := w.turns[t].(speak := Done(outcome))])
  }

  /** A run from `w`: every step is enabled where it is taken. */
  predicate IsRun(w: World, steps: seq<Step>)
    decreases |steps|
  {
    steps == [] || (Enabled(w, steps[0]) && IsRun(Do(w, steps[0]), steps[1..]))
  }

  function After(w: World, steps: seq<Step>): World
    requires IsRun(w, steps)
    decreases |steps|
  {
    if steps == [] then w else After(Do(w, steps[0]), steps[1..])
  }

  // ---------------------------------------------------------------------------
  // The invariant

  /** Before finish_turn: the turn may still think, answer or speak. */
  predicate Unfinished(t: Turn) {
    !t.pc.Ended? && !t.pc.SendingComplete?
  }

  predicate Cancelling(pc: LoopPc) {
    pc.CancellingTurn? || pc.CancellingThink? || pc.CancellingSpeak?
  }

  predicate BeforeSpeech(pc: TurnPc) {
    pc.NotStarted? || pc.AwaitingThink? || pc.SendingError? || pc.SendingText?
  }

  /** A turn's subtasks run only while the turn awaits them. */
  predicate TurnConsistent(t: Turn) {
    && (t.pc.NotStarted? ==> t.think.NotCreated?)
    && (t.think.NotCreated? ==> t.pc.NotStarted? || t.pc.Ended?)
    && (t.think.Running? ==> t.pc.AwaitingThink?)
    && (t.speak.Running? ==> t.pc.AwaitingSpeak?)
    && (t.pc.AwaitingSpeak? ==> !t.speak.NotCreated?)
    && (t.pc.SendingComplete? ==> t.speak == Done(Returned))
    && (BeforeSpeech(t.pc) ==> t.speak.NotCreated?)
    && (t.cancelling ==> !t.think.Running? && !t.speak.Running?)
  }

  predicate RefsOk(w: World) {
    && (w.session.turnRef.Some? ==> w.session.turnRef.value == |w.turns| - 1)
    && (w.session.thinkRef.Some? ==> w.session.turnRef == w.session.thinkRef)
    && (w.session.speakRef.Some? ==> w.session.turnRef == w.session.speakRef)
    && (w.session.phase == Listening && !Cancelling(w.loop) ==> w.session.turnRef.None?)
  }

  predicate LoopOk(w: World) {
    && !w.loop.CancellingThink?
    && !w.loop.CancellingSpeak?
    && (w.loop.CancellingTurn? ==>
          && |w.turns| > 0 && w.loop.victim == Some(|w.turns| - 1)
          && (w.turns[|w.turns| - 1].pc.NotStarted? ==> w.turns[|w.turns| - 1].cancelling))
    && (w.loop.SendingTranscript? ==> w.session.phase == Listening)
    && (w.loop.SendingBargeIn? && w.loop.victim.Some? ==>
          w.loop.victim.value < |w.turns| && w.turns[w.loop.victim.value].pc.Ended?)
    && (w.loop.ClosingTurn? ==> |w.turns| > 0)
    && (w.loop.Closed? ==> |w.turns| > 0 ==> w.turns[|w.turns| - 1].pc.Ended?)
  }

  ghost predicate TurnsOk(w: World) {
    && (forall t | 0 <= t < |w.turns| :: TurnConsistent(w.turns[t]))
    && (forall t | 0 <= t < |w.turns| && Unfinished(w.turns[t]) :: w.session.turnRef == Some(t))
    && (forall t | 0 <= t < |w.turns| && w.turns[t].pc.SendingComplete? :: w.session.turnRef != Some(t))
    && (forall t | 0 <= t < |w.turns| && w.turns[t].cancelling && !w.turns[t].pc.Ended? ::
          t == |w.turns| - 1 && (w.loop.CancellingTurn? || w.loop.ClosingTurn?))
  }

  predicate FromTurn(m: Message, t: nat) {
    match m
    case TurnError(u) => u == t
    case AssistantText(u) => u == t
    case Audio(u) => u == t
    case TextOnlyFallback(u) => u == t
    case TurnComplete(u) => u == t
    case _ => false
  }

  /** Every interrupted turn has ended, and nothing of it follows its barge_in_detected. */
  ghost predicate LogOk(w: World) {
    && (forall i | 0 <= i < |w.log| && w.log[i].BargeInDetected? && w.log[i].victim.Some? ::
          w.log[i].victim.value < |w.turns| && w.turns[w.log[i].victim.value].pc.Ended?)
    && (forall i, j | 0 <= i < j < |w.log| && w.log[i].BargeInDetected? && w.log[i].victim.Some? ::
          !FromTurn(w.log[j], w.log[i].victim.value))
  }

  ghost predicate Inv(w: World) {
    RefsOk(w) && LoopOk(w) && TurnsOk(w) && LogOk(w)
  }

  // ---------------------------------------------------------------------------
  // Every step keeps the invariant

  /** One turn moves on without touching the session, the loop or the log. */
  lemma TurnMoves(w: World, t: nat, x: Turn)
    requires Inv(w) && t < |w.turns| && TurnConsistent(x)
    requires Unfinished(x) ==> Unfinished(w.turns[t])
    requires w.turns[t].pc.Ended? ==> x.pc.Ended?
    requires x.pc.SendingComplete? ==> w.turns[t].pc.SendingComplete?
    requires x.cancelling == w.turns[t].cancelling
    requires w.turns[t].think.NotCreated? || !x.think.NotCreated?
    ensures Inv(w.(turns := w.turns[t := x]))
  {
  }

  lemma FinishKeepsInv(w: World, t: nat)
    requires Inv(w) && t < |w.turns| && w.turns[t].pc.AwaitingSpeak? && w.turns[t].speak == Done(Returned)
      && !w.turns[t].cancelling
    ensures Inv(Goto(w, t, SendingComplete(false)).(session := FinishTurn(w.session)))
  {
  }

  /** A turn that has not ended speaks up. */
  lemma TurnSays(w: World, m: Message, t: nat)
    requires Inv(w) && t < |w.turns| && !w.turns[t].pc.Ended? && FromTurn(m, t)
    ensures Inv(Say(w, m))
  {
  }

  lemma TurnEmitKeepsInv(w: World, t: nat)
    requires Inv(w) && Enabled(w, TurnEmit(t))
    ensures Inv(OnTurnEmit(w, t))
  {
    var pc', m := OnTurnEmit(w, t).turns[t].pc, OnTurnEmit(w, t).log[|w.log|];
    TurnMoves(w, t, w.turns[t].(pc := pc'));
    TurnSays(Goto(w, t, pc'), m, t);
  }

  lemma TurnResumeKeepsInv(w: World, t: nat)
    requires Inv(w) && Enabled(w, TurnResume(t))
    ensures Inv(OnTurnResume(w, t))
  {
    if OnTurnResume(w, t).session == w.session {
      TurnMoves(w, t, OnTurnResume(w, t).turns[t]);
    } else {
      FinishKeepsInv(w, t);
    }
  }

  lemma TurnSentKeepsInv(w: World, t: nat)
    requires Inv(w) && Enabled(w, TurnSent(t))
    ensures Inv(OnTurnSent(w, t))
  {
    TurnMoves(w, t, OnTurnSent(w, t).turns[t]);
  }

  lemma TurnStepKeepsInv(w: World, step: Step)
    requires Inv(w) && Enabled(w, step)
    requires !step.Get? && !step.LoopEmit? && !step.LoopSent? && !step.LoopSendRaises? && !step.LoopResume?
    ensures Inv(Do(w, step))
  {
    var t := step.turn;
    match step {
      case TurnStart(_) => TurnMoves(w, t, w.turns[t].(pc := AwaitingThink, think := Running(false)));
      case TurnEmit(_) => TurnEmitKeepsInv(w, t);
      case TurnSent(_) => TurnSentKeepsInv(w, t);
      case TurnResume(_) => TurnResumeKeepsInv(w, t);
      case ThinkEnds(_, outcome) => TurnMoves(w, t, w.turns[t].(think := Done(outcome)));
      case SpeakEnds(_, outcome) => TurnMoves(w, t, w.turns[t].(speak := Done(outcome)));
      case SpeakEmits(_, textOnly) => TurnSays(w, if textOnly then TextOnlyFallback(t) else Audio(t), t);
      case TurnSendRaises(_) => TurnMoves(w, t, w.turns[t].(pc := Ended));
      case TurnCancelled(_) => TurnMoves(w, t, w.turns[t].(pc := Ended));
    }
  }

  lemma LoopEmitKeepsInv(w: World)
    requires Inv(w) && Enabled(w, LoopEmit)
    ensures Inv(OnLoopEmit(w))
  {
  }

  lemma LoopSentKeepsInv(w: World)
    requires Inv(w) && Enabled(w, LoopSent)
    ensures Inv(OnLoopSent(w))
  {
  }

  /** The session becomes idle and the loop turns to cancelling the one unfinished turn, if any. */
  lemma BargeInKeepsInv(w: World)
    requires Inv(w) && w.loop.Waiting? && w.session.phase != Listening
    ensures Inv(CancelTurn(w.(session := BeginBargeIn(w.session)), w.session.turnRef))
  {
    if w.session.turnRef.Some? && !w.turns[w.session.turnRef.value].pc.Ended? {
      CancelKeepsTurn(w.turns[w.session.turnRef.value]);
    }
  }

  lemma CancelKeepsTurn(t: Turn)
    requires TurnConsistent(t)
    ensures TurnConsistent(RequestCancel(t)) && RequestCancel(t).pc == t.pc
  {
  }

  lemma EventKeepsInv(w: World, event: Event)
    requires Inv(w) && w.loop.Waiting?
    ensures Inv(OnEvent(w, event))
  {
    if event.SpeechStart? && w.session.phase != Listening {
      BargeInKeepsInv(w);
    }
  }

  lemma VictimGone(w: World)
    requires Inv(w) && w.loop.CancellingTurn? && Enabled(w, LoopResume)
    ensures Inv(OnLoopResume(w))
    ensures OnLoopResume(w) == BargedIn(w, w.loop.victim)
  {
  }

  lemma ClosingKeepsInv(w: World)
    requires Inv(w) && w.loop.ClosingStt?
    ensures Inv(OnLoopResume(w))
  {
    if |w.turns| > 0 {
      CancelKeepsTurn(w.turns[|w.turns| - 1]);
    }
  }

  lemma ResumeKeepsInv(w: World)
    requires Inv(w) && Enabled(w, LoopResume)
    ensures Inv(OnLoopResume(w))
  {
    match w.loop {
      case CancellingTurn(_) => VictimGone(w);
      case ClosingStt => ClosingKeepsInv(w);
      case _ =>
    }
  }

  lemma StepKeepsInv(w: World, step: Step)
    requires Inv(w) && Enabled(w, step)
    ensures Inv(Do(w, step))
  {
    match step {
      case Get(event) => EventKeepsInv(w, event);
      case LoopEmit => LoopEmitKeepsInv(w);
      case LoopSent => LoopSentKeepsInv(w);
      case LoopResume => ResumeKeepsInv(w);
      case LoopSendRaises =>
      case _ => TurnStepKeepsInv(w, step);
    }
  }

  lemma {:induction false} RunKeepsInv(w: World, steps: seq<Step>)
    requires Inv(w) && IsRun(w, steps)
    ensures Inv(After(w, steps))
    decreases |steps|
  {
    if steps != [] {
      StepKeepsInv(w, steps[0]);
      RunKeepsInv(Do(w, steps[0]), steps[1..]);
    }
  }

  // ---------------------------------------------------------------------------
  // What holds over every run of a session

  /** At most one turn is short of finish_turn, and a barge-in can always reach it. */
  lemma OneTurnAtATime(steps: seq<Step>, s: nat, t: nat)
    requires IsRun(INITIAL_WORLD, steps)
    ensures var w := After(INITIAL_WORLD, steps);
      && (t < |w.turns| && Unfinished(w.turns[t]) ==> w.session.turnRef == Some(t))
      && (s < |w.turns| && t < |w.turns| && Unfinished(w.turns[s]) && Unfinished(w.turns[t]) ==> s == t)
  {
    RunKeepsInv(INITIAL_WORLD, steps);
  }

  predicate Busy(t: Turn) {
    t.think.Running? || t.speak.Running?
  }

  /** No two subtasks of a session run at once: one thinks, or one speaks. */
  lemma OneVoiceAtATime(steps: seq<Step>, s: nat, t: nat)
    requires IsRun(INITIAL_WORLD, steps)
    requires s < |After(INITIAL_WORLD, steps).turns| && t < |After(INITIAL_WORLD, steps).turns|
    ensures var w := After(INITIAL_WORLD, steps);
      && (Busy(w.turns[s]) && Busy(w.turns[t]) ==> s == t)
      && !(w.turns[t].think.Running? && w.turns[t].speak.Running?)
  {
    RunKeepsInv(INITIAL_WORLD, steps);
  }

  /** Once barge_in_detected is sent for a turn, nothing of that turn is ever sent again. */
  lemma SilenceAfterBargeIn(steps: seq<Step>, i: nat, j: nat)
    requires IsRun(INITIAL_WORLD, steps)
    requires i < |After(INITIAL_WORLD, steps).log| && After(INITIAL_WORLD, steps).log[i].BargeInDetected?
    requires After(INITIAL_WORLD, steps).log[i].victim.Some?
    ensures var w := After(INITIAL_WORLD, steps);
      && w.log[i].victim.value < |w.turns| && w.turns[w.log[i].victim.value].pc.Ended?
      && (i < j < |w.log| ==> !FromTurn(w.log[j], w.log[i].victim.value))
  {
    RunKeepsInv(INITIAL_WORLD, steps);
  }

  /** Cancelling the turn task always suffices: the two further cancellations never wait for anything. */
  lemma SecondLayerNeverWaits(steps: seq<Step>)
    requires IsRun(INITIAL_WORLD, steps)
    ensures !After(INITIAL_WORLD, steps).loop.CancellingThink? && !After(INITIAL_WORLD, steps).loop.CancellingSpeak?
  {
    RunKeepsInv(INITIAL_WORLD, steps);
  }

  // ---------------------------------------------------------------------------
  // What one turn says, in order

  predicate IsTurnMessage(m: Message) {
    m.TurnError? || m.AssistantText? || m.Audio? || m.TextOnlyFallback? || m.TurnComplete?
  }

  function Stage(m: Message): int {
    match m
    case TurnError(_) => 0
    case AssistantText(_) => 1
    case Audio(_) => 2
    case TextOnlyFallback(_) => 2
    case TurnComplete(_) => 3
    case _ => -1
  }

  /** The latest stage a turn suspended here can have spoken. */
  function Reached(pc: TurnPc): int {
    match pc
    case NotStarted => -1
    case AwaitingThink => -1
    case SendingError(out) => if out then 0 else -1
    case SendingText(out) => if out then 1 else 0
    case AwaitingSpeak => 2
    case SendingComplete(out) => if out then 3 else 2
    case Ended => 3
  }

  predicate TextIsOut(pc: TurnPc) {
    pc == SendingText(true) || pc.AwaitingSpeak? || pc.SendingComplete?
  }

  /** Stages only grow, and only audio and its fallback repeat. */
  ghost predicate StagesOk(w: World) {
    && (forall i | 0 <= i < |w.log| && IsTurnMessage(w.log[i]) ::
          w.log[i].turn < |w.turns| && Stage(w.log[i]) <= Reached(w.turns[w.log[i].turn].pc))
    && (forall i, j | 0 <= i < j < |w.log| && IsTurnMessage(w.log[i]) && IsTurnMessage(w.log[j])
          && w.log[i].turn == w.log[j].turn ::
          Stage(w.log[i]) < Stage(w.log[j]) || Stage(w.log[i]) == Stage(w.log[j]) == 2)
  }

  /** Nothing is spoken, and no turn completed, before its text was shown. */
  ghost predicate TextFirst(w: World) {
    && (forall t | 0 <= t < |w.turns| && TextIsOut(w.turns[t].pc) :: AssistantText(t) in w.log)
    && (forall j | 0 <= j < |w.log| && Stage(w.log[j]) >= 2 :: AssistantText(w.log[j].turn) in w.log[..j])
  }

  /** A step adds at most one message; a turn's message is of a later stage than any before. */
  ghost predicate Advances(w: World, w': World) {
    && |w.turns| <= |w'.turns|
    && (forall t | 0 <= t < |w.turns| :: Reached(w.turns[t].pc) <= Reached(w'.turns[t].pc))
    && (w'.log == w.log ||
        (|w'.log| == |w.log| + 1 && w'.log[..|w.log|] == w.log && Fits(w, w', w'.log[|w.log|])))
    && (forall t | 0 <= t < |w'.turns| && TextIsOut(w'.turns[t].pc) ::
          (t < |w.turns| && TextIsOut(w.turns[t].pc))
            || (|w'.log| == |w.log| + 1 && w'.log[|w.log|] == AssistantText(t)))
  }

  predicate Fits(w: World, w': World, m: Message)
    requires |w.turns| <= |w'.turns|
  {
    IsTurnMessage(m) ==>
      && m.turn < |w.turns|
      && Stage(m) <= Reached(w'.turns[m.turn].pc)
      && (Reached(w.turns[m.turn].pc) < Stage(m) || Reached(w.turns[m.turn].pc) == Stage(m) == 2)
      && (Stage(m) >= 2 ==> TextIsOut(w.turns[m.turn].pc))
  }

  lemma StepAdvances(w: World, step: Step)
    requires Inv(w) && Enabled(w, step)
    ensures Advances(w, Do(w, step))
  {
    hide Inv, Advances;
    match step {
      case Get(event) => EventAdvances(w, event);
      case LoopResume => ResumeAdvances(w);
      case LoopEmit => SpeakingAdvances(w, step);
      case TurnEmit(_) => SpeakingAdvances(w, step);
      case SpeakEmits(_, _) => SpeakingAdvances(w, step);
      case LoopSent => QuietLoopAdvances(w, step);
      case LoopSendRaises => QuietLoopAdvances(w, step);
      case _ => QuietTurnAdvances(w, step);
    }
  }

  lemma SpeakingAdvances(w: World, step: Step)
    requires Inv(w) && Enabled(w, step) && (step.LoopEmit? || step.TurnEmit? || step.SpeakEmits?)
    ensures Advances(w, Do(w, step))
  {
    hide Advances;
    match step {
      case LoopEmit => SayAdvances(w, w.(loop := Do(w, step).loop), Do(w, step).log[|w.log|]);
      case TurnEmit(_) => TurnEmitAdvances(w, step);
      case SpeakEmits(_, _) => SayAdvances(w, w, Do(w, step).log[|w.log|]);
    }
  }

  lemma TurnEmitAdvances(w: World, step: Step)
    requires Inv(w) && Enabled(w, step) && step.TurnEmit?
    ensures Advances(w, Do(w, step))
  {
    hide Advances;
    SayAdvances(w, Goto(w, step.turn, Do(w, step).turns[step.turn].pc), Do(w, step).log[|w.log|]);
  }

  lemma QuietLoopAdvances(w: World, step: Step)
    requires Enabled(w, step) && (step.LoopSent? || step.LoopSendRaises?)
    ensures Advances(w, Do(w, step))
  {
  }

  lemma SayAdvances(w: World, v: World, m: Message)
    requires v.log == w.log && |v.turns| == |w.turns| && Fits(w, v, m)
    requires forall t | 0 <= t < |w.turns| :: Reached(w.turns[t].pc) <= Reached(v.turns[t].pc)
    requires forall t | 0 <= t < |w.turns| && TextIsOut(v.turns[t].pc) ::
               TextIsOut(w.turns[t].pc) || m == AssistantText(t)
    ensures Advances(w, Say(v, m))
  {
    assert (w.log + [m])[..|w.log|] == w.log;
  }

  lemma QuietTurnAdvances(w: World, step: Step)
    requires Inv(w) && Enabled(w, step)
    requires step.TurnStart? || step.TurnSent? || step.TurnSendRaises? || step.TurnResume? || step.TurnCancelled?
      || step.ThinkEnds? || step.SpeakEnds?
    ensures Advances(w, Do(w, step))
  {
    hide Advances;
    var w', t := Do(w, step), step.turn;
    match step {
      case TurnStart(_) => OneTurnMoves(w, w', t);
      case TurnSent(_) => OneTurnMoves(w, w', t);
      case TurnSendRaises(_) => OneTurnMoves(w, w', t);
      case TurnResume(_) => ResumedTurnMoves(w, t);
      case TurnCancelled(_) => OneTurnMoves(w, w', t);
      case ThinkEnds(_, _) => OneTurnMoves(w, w', t);
      case SpeakEnds(_, _) => OneTurnMoves(w, w', t);
    }
  }

  lemma ResumedTurnMoves(w: World, t: nat)
    requires Inv(w) && Enabled(w, TurnResume(t))
    ensures Advances(w, Do(w, TurnResume(t)))
  {
    hide Advances;
    OneTurnMoves(w, Do(w, TurnResume(t)), t);
  }

  /** A turn moves on without a word. */
  lemma OneTurnMoves(w: World, w': World, t: nat)
    requires t < |w.turns| == |w'.turns| && w'.log == w.log && w'.turns == w.turns[t := w'.turns[t]]
    requires Reached(w.turns[t].pc) <= Reached(w'.turns[t].pc)
    requires TextIsOut(w'.turns[t].pc) ==> TextIsOut(w.turns[t].pc)
    ensures Advances(w, w')
  {
  }

  lemma EventAdvances(w: World, event: Event)
    requires Inv(w) && w.loop.Waiting?
    ensures Advances(w, OnEvent(w, event))
  {
  }

  lemma ResumeAdvances(w: World)
    requires Inv(w) && Enabled(w, LoopResume)
    ensures Advances(w, OnLoopResume(w))
  {
  }

  lemma AdvanceKeepsStages(w: World, w': World)
    requires StagesOk(w) && Advances(w, w')
    ensures StagesOk(w')
  {
    assert forall i | 0 <= i < |w.log| :: w'.log[..|w.log|][i] == w.log[i];
  }

  lemma AdvanceKeepsTextFirst(w: World, w': World)
    requires TextFirst(w) && Advances(w, w')
    ensures TextFirst(w')
  {
    forall j | 0 <= j < |w'.log| && Stage(w'.log[j]) >= 2
      ensures AssistantText(w'.log[j].turn) in w'.log[..j]
    {
      if j < |w.log| {
        assert w'.log[j] == w'.log[..|w.log|][j] == w.log[j];
        assert w'.log[..j] == w'.log[..|w.log|][..j] == w.log[..j];
      }
    }
    forall t | 0 <= t < |w'.turns| && TextIsOut(w'.turns[t].pc)
      ensures AssistantText(t) in w'.log
    {
      if t < |w.turns| && TextIsOut(w.turns[t].pc) {
        assert AssistantText(t) in w'.log[..|w.log|];
      }
    }
  }

  lemma {:induction false} RunKeepsOrder(w: World, steps: seq<Step>)
    requires Inv(w) && StagesOk(w) && TextFirst(w) && IsRun(w, steps)
    ensures StagesOk(After(w, steps)) && TextFirst(After(w, steps))
    decreases |steps|
  {
    if steps != [] {
      StepKeepsInv(w, steps[0]);
      StepAdvances(w, steps[0]);
      AdvanceKeepsStages(w, Do(w, steps[0]));
      AdvanceKeepsTextFirst(w, Do(w, steps[0]));
      RunKeepsOrder(Do(w, steps[0]), steps[1..]);
    }
  }

  /**
   A turn reports its backend error, then its text, then its audio, then its
   completion: each at most once but for audio, and nothing after the
   completion; what is spoken or completed was shown as text before.
   */
  lemma TurnSpeaksInOrder(steps: seq<Step>, i: nat, j: nat)
    requires IsRun(INITIAL_WORLD, steps)
    requires i < j < |After(INITIAL_WORLD, steps).log|
    ensures var log := After(INITIAL_WORLD, steps).log;
      && (IsTurnMessage(log[i]) && IsTurnMessage(log[j]) && log[i].turn == log[j].turn ==>
            Stage(log[i]) < Stage(log[j]) || Stage(log[i]) == Stage(log[j]) == 2)
      && (Stage(log[j]) >= 2 ==> AssistantText(log[j].turn) in log[..j])
  {
    NothingSaid();
    hide After, IsRun, Inv, INITIAL_WORLD;
    RunKeepsOrder(INITIAL_WORLD, steps);
  }

  lemma NothingSaid()
    ensures Inv(INITIAL_WORLD) && StagesOk(INITIAL_WORLD) && TextFirst(INITIAL_WORLD)
  {
  }

  // ---------------------------------------------------------------------------
  // One speech_start

  /** A turn later on: what was spoken or settled stays so. */
  predicate Follows(t: Turn, t': Turn) {
    && (!t.speak.NotCreated? ==> !t'.speak.NotCreated?)
    && (!Unfinished(t) ==> !Unfinished(t') && t'.speak == t.speak)
    && (t.cancelling ==> t'.cancelling && t'.speak == t.speak)
  }

  /** The turn gets, or got, to finish_turn although it was being cancelled. */
  predicate FinishesLate(t: Turn, t': Turn) {
    Unfinished(t) && !t.cancelling && t'.speak == Done(Returned)
  }

  /** The session after a barge-in that found the victim at t and left it at t'. */
  function Settled(v: SessionView, t: Turn, t': Turn): SessionView {
    SessionView(
      if FinishesLate(t, t') then Listening
      else if t.speak.NotCreated? && !t'.speak.NotCreated? then Speaking
      else v.phase,
      v.tokenGeneration + (if FinishesLate(t, t') then 2 else 1),
      false, v.events + 1, None, None, None)
  }

  /** One step while the loop waits for its victim: the loop waits on, or the victim had ended. */
  lemma CancelStep(w: World, step: Step)
    requires Inv(w) && Cancelling(w.loop) && Enabled(w, step)
    ensures |w.turns| > 0
    ensures var w' := Do(w, step); var n := |w.turns| - 1;
      && |w'.turns| == |w.turns| && Follows(w.turns[n], w'.turns[n])
      && (w'.loop != w.loop ==>
            w'.loop == SendingBargeIn(false, w.loop.victim)
              && w'.session == Settled(w.session, w.turns[n], w'.turns[n]))
  {
    hide LogOk;
    if step.LoopResume? {
      VictimGone(w);
    }
  }

  /** While it waits, what the session will be does not change. */
  lemma CancelStepSettles(w: World, step: Step, t': Turn)
    requires Inv(w) && Cancelling(w.loop) && Enabled(w, step) && Do(w, step).loop == w.loop
    requires |w.turns| > 0 && |Do(w, step).turns| == |w.turns| && Follows(Do(w, step).turns[|w.turns| - 1], t')
    ensures Settled(Do(w, step).session, Do(w, step).turns[|w.turns| - 1], t')
      == Settled(w.session, w.turns[|w.turns| - 1], t')
  {
    hide LogOk;
  }

  /** `steps` runs on while the loop is cancelling, and stops where it stops. */
  predicate CancelsThrough(w: World, steps: seq<Step>)
    requires IsRun(w, steps)
    decreases |steps|
  {
    if steps == [] then !Cancelling(w.loop)
    else Cancelling(w.loop) && CancelsThrough(Do(w, steps[0]), steps[1..])
  }

  lemma {:induction false} CancelsToBargeIn(w: World, steps: seq<Step>)
    requires Inv(w) && Cancelling(w.loop) && IsRun(w, steps) && CancelsThrough(w, steps)
    ensures var w' := After(w, steps); var n := |w.turns| - 1;
      && |w'.turns| == |w.turns| > 0 && Follows(w.turns[n], w'.turns[n])
      && w'.loop == SendingBargeIn(false, w.loop.victim)
      && w'.session == Settled(w.session, w.turns[n], w'.turns[n])
    decreases |steps|
  {
    hide Inv, Follows, Settled, Do, Enabled;
    CancelStep(w, steps[0]);
    StepKeepsInv(w, steps[0]);
    var w1, n := Do(w, steps[0]), |w.turns| - 1;
    if Cancelling(w1.loop) {
      CancelsToBargeIn(w1, steps[1..]);
      CancelStepSettles(w, steps[0], After(w, steps).turns[n]);
      FollowsOn(w.turns[n], w1.turns[n], After(w, steps).turns[n]);
    } else {
      assert steps[1..] == [];
    }
  }

  lemma FollowsOn(a: Turn, b: Turn, c: Turn)
    requires Follows(a, b) && Follows(b, c)
    ensures Follows(a, c)
  {
  }

  /** The interrupted turn swallowed its cancellation while thinking, and then died while it spoke. */
  predicate DiedSpeaking(t: Turn, t': Turn) {
    t.think.Running? && !t'.speak.NotCreated? && t'.speak != Done(Returned)
  }

  /** The interrupted turn swallowed its cancellation, and spoke to the end. */
  predicate SpokeOn(t: Turn, t': Turn) {
    (t.think.Running? || t.speak.Running?) && t'.speak == Done(Returned)
  }

  /** What one speech_start has made of the world when the loop is done with it. */
  predicate Recovers(w: World, w': World) {
    var v := w.session.turnRef;
    if w.session.phase == Listening then w' == w
    else
      && w'.loop == SendingBargeIn(false, v)
      && w'.session.thinkRef == w'.session.speakRef == w'.session.turnRef == None
      && !w'.session.tokenCancelled && w'.session.events == w.session.events + 1
      && (v.Some? ==> v.value < |w.turns| == |w'.turns|)
      && (w'.session.phase == Listening <==> !(v.Some? && DiedSpeaking(w.turns[v.value], w'.turns[v.value])))
      && w'.session.tokenGeneration
         == w.session.tokenGeneration + if v.Some? && SpokeOn(w.turns[v.value], w'.turns[v.value]) then 2 else 1
  }

  lemma RecoversFrom(w: World, during: seq<Step>)
    requires Inv(w) && w.loop.Waiting?
    requires IsRun(OnEvent(w, SpeechStart), during) && CancelsThrough(OnEvent(w, SpeechStart), during)
    ensures Recovers(w, After(OnEvent(w, SpeechStart), during))
  {
    EventKeepsInv(w, SpeechStart);
    IdleIgnores(w);
    hide After, IsRun, Inv, Do, Enabled, OnEvent, Settled;
    if w.session.phase != Listening {
      BargeInBegins(w);
      var w1 := OnEvent(w, SpeechStart);
      if Cancelling(w1.loop) {
        CancelsToBargeIn(w1, during);
        VictimSettles(w, After(w1, during).turns[|w.turns| - 1]);
        SettledMeans(BeginBargeIn(w.session), w1.turns[|w.turns| - 1], After(w1, during).turns[|w.turns| - 1]);
      } else {
        NoStepsLeft(w1, during);
      }
    } else {
      NoStepsLeft(w, during);
    }
  }

  /**
   From any reachable state one speech_start leaves an idle session alone, and
   takes an active one to a fresh token with no task registered and exactly one more
   event, naming the turn that was interrupted. It is Listening again, if and only if
   that turn did not think on in spite of its cancellation and die while speaking.
   */
  lemma SpeechStartRecovers(before: seq<Step>, during: seq<Step>)
    requires IsRun(INITIAL_WORLD, before) && After(INITIAL_WORLD, before).loop.Waiting?
    requires IsRun(OnEvent(After(INITIAL_WORLD, before), SpeechStart), during)
    requires CancelsThrough(OnEvent(After(INITIAL_WORLD, before), SpeechStart), during)
    ensures var w := After(INITIAL_WORLD, before); Recovers(w, After(OnEvent(w, SpeechStart), during))
  {
    RunKeepsInv(INITIAL_WORLD, before);
    RecoversFrom(After(INITIAL_WORLD, before), during);
  }

  lemma IdleIgnores(w: World)
    ensures w.session.phase == Listening ==> OnEvent(w, SpeechStart) == w
  {
  }

  lemma NoStepsLeft(w: World, steps: seq<Step>)
    requires IsRun(w, steps) && CancelsThrough(w, steps) && !Cancelling(w.loop)
    ensures After(w, steps) == w
  {
  }

  /** An active session starts to cancel its turn, unless that has ended already. */
  lemma BargeInBegins(w: World)
    requires Inv(w) && w.loop.Waiting? && w.session.phase != Listening
    ensures var w1 := OnEvent(w, SpeechStart); var v := w.session.turnRef;
      && (v.Some? ==> v.value == |w.turns| - 1)
      && (Cancelling(w1.loop) <==> v.Some? && !w.turns[v.value].pc.Ended?)
      && (Cancelling(w1.loop) ==>
            && w1 == w.(session := BeginBargeIn(w.session), loop := CancellingTurn(v),
                        turns := w.turns[v.value := RequestCancel(w.turns[v.value])])
            && Unfinished(w.turns[v.value]) && TurnConsistent(w.turns[v.value]))
      && (!Cancelling(w1.loop) ==>
            && w1 == w.(session := EndBargeIn(BeginBargeIn(w.session)), loop := SendingBargeIn(false, v))
            && (v.Some? ==> TurnConsistent(w.turns[v.value])))
  {
    hide LogOk;
  }

  lemma SettledMeans(v: SessionView, t: Turn, t': Turn)
    ensures var s := Settled(v, t, t');
      s.thinkRef == s.speakRef == s.turnRef == None && !s.tokenCancelled && s.events == v.events + 1
  {
  }

  /** What the settled session says of the victim as the barge-in found it. */
  lemma VictimSettles(w: World, t': Turn)
    requires |w.turns| > 0 && w.session.phase != Listening
    requires var t := w.turns[|w.turns| - 1]; Unfinished(t) && TurnConsistent(t) && Follows(RequestCancel(t), t')
    ensures var t := w.turns[|w.turns| - 1]; var v := Settled(BeginBargeIn(w.session), RequestCancel(t), t');
      && (v.phase == Listening <==> !DiedSpeaking(t, t'))
      && v.tokenGeneration == w.session.tokenGeneration + if SpokeOn(t, t') then 2 else 1
  {
  }

  /** Every think task that ends here ends as cancelled. */
  predicate ThinkHonours(steps: seq<Step>) {
    forall k | 0 <= k < |steps| && steps[k].ThinkEnds? :: steps[k].outcome.WasCancelled?
  }

  /** A cancelled turn that has not come past its think task, and will not. */
  predicate ThinksNoFurther(t: Turn) {
    && t.speak.NotCreated?
    && (|| t.pc.Ended? || t.cancelling
        || (t.pc.AwaitingThink? && (t.think.Running? || t.think == Done(WasCancelled))))
  }

  lemma {:induction false} ThinkStopsTurn(w: World, steps: seq<Step>)
    requires Inv(w) && Cancelling(w.loop) && IsRun(w, steps) && CancelsThrough(w, steps) && ThinkHonours(steps)
    requires |w.turns| > 0 && ThinksNoFurther(w.turns[|w.turns| - 1])
    ensures |After(w, steps).turns| == |w.turns| && After(w, steps).turns[|w.turns| - 1].speak.NotCreated?
    decreases |steps|
  {
    hide Inv;
    ThinkStopsTurnOne(w, steps[0]);
    StepKeepsInv(w, steps[0]);
    if Cancelling(Do(w, steps[0]).loop) {
      ThinkStopsTurn(Do(w, steps[0]), steps[1..]);
    } else {
      assert steps[1..] == [];
    }
  }

  lemma ThinkStopsTurnOne(w: World, step: Step)
    requires Inv(w) && Cancelling(w.loop) && Enabled(w, step) && (step.ThinkEnds? ==> step.outcome.WasCancelled?)
    requires |w.turns| > 0 && ThinksNoFurther(w.turns[|w.turns| - 1])
    ensures |Do(w, step).turns| == |w.turns| && ThinksNoFurther(Do(w, step).turns[|w.turns| - 1])
  {
    hide LogOk;
    if step.LoopResume? {
      VictimGone(w);
    }
  }

  /** When the backend call honours its cancellation, one speech_start always ends in Listening. */
  lemma HonouredCancelRecovers(before: seq<Step>, during: seq<Step>)
    requires IsRun(INITIAL_WORLD, before) && After(INITIAL_WORLD, before).loop.Waiting?
    requires IsRun(OnEvent(After(INITIAL_WORLD, before), SpeechStart), during)
    requires CancelsThrough(OnEvent(After(INITIAL_WORLD, before), SpeechStart), during)
    requires ThinkHonours(during)
    ensures After(OnEvent(After(INITIAL_WORLD, before), SpeechStart), during).session.phase == Listening
  {
    var w := After(INITIAL_WORLD, before);
    var w1 := OnEvent(w, SpeechStart);
    SpeechStartRecovers(before, during);
    RunKeepsInv(INITIAL_WORLD, before);
    EventKeepsInv(w, SpeechStart);
    IdleIgnores(w);
    hide After, IsRun, Inv, Do, Enabled, OnEvent, INITIAL_WORLD;
    if w.session.phase != Listening {
      BargeInBegins(w);
      if Cancelling(w1.loop) && w.turns[|w.turns| - 1].think.Running? {
        ThinkStopsTurn(w1, during);
      }
    }
  }

  /** How far a turn that is being cancelled is from its end. */
  function CancelRank(t: Turn): nat {
    if t.cancelling && !t.pc.Ended? && !t.think.Running? && !t.speak.Running? then 1
    else
      match t.pc
      case NotStarted => 11
      case AwaitingThink => if t.think.Running? then 10 else 9
      case SendingError(out) => if out then 7 else 8
      case SendingText(out) => if out then 5 else 6
      case AwaitingSpeak => if t.speak.Running? then 4 else 3
      case SendingComplete(out) => if out then 1 else 2
      case Ended => 0
  }

  /** A step that brings it nearer: of the subtask, of the turn, or of the loop when the turn has ended. */
  function CancelNext(n: nat, t: Turn): Step {
    if t.pc.Ended? then LoopResume
    else if t.think.Running? then ThinkEnds(n, WasCancelled)
    else if t.speak.Running? then SpeakEnds(n, WasCancelled)
    else if t.pc.AwaitingThink? || t.pc.AwaitingSpeak? then TurnResume(n)
    else if t.cancelling then TurnCancelled(n)
    else if t.pc.NotStarted? then TurnStart(n)
    else if t.pc.out then TurnSent(n)
    else TurnEmit(n)
  }

  /** A barge-in never gets stuck: a step that brings it closer is enabled, and no other step sets it back. */
  lemma BargeInProgresses(w: World, other: Step)
    requires Inv(w) && Cancelling(w.loop) && Enabled(w, other)
    ensures |w.turns| > 0 && Enabled(w, CancelNext(|w.turns| - 1, w.turns[|w.turns| - 1]))
    ensures var n := |w.turns| - 1; var w' := Do(w, CancelNext(n, w.turns[n]));
      if CancelRank(w.turns[n]) == 0 then w'.loop.SendingBargeIn?
      else w'.loop == w.loop && |w'.turns| == |w.turns| && CancelRank(w'.turns[n]) < CancelRank(w.turns[n])
    ensures var n := |w.turns| - 1; var w' := Do(w, other);
      w'.loop == w.loop ==> |w'.turns| == |w.turns| && CancelRank(w'.turns[n]) <= CancelRank(w.turns[n])
  {
    hide LogOk;
    NextComesCloser(w);
    NoStepBack(w, other);
  }

  lemma NextComesCloser(w: World)
    requires Inv(w) && Cancelling(w.loop)
    ensures |w.turns| > 0 && Enabled(w, CancelNext(|w.turns| - 1, w.turns[|w.turns| - 1]))
    ensures var n := |w.turns| - 1; var w' := Do(w, CancelNext(n, w.turns[n]));
      if CancelRank(w.turns[n]) == 0 then w'.loop.SendingBargeIn?
      else w'.loop == w.loop && |w'.turns| == |w.turns| && CancelRank(w'.turns[n]) < CancelRank(w.turns[n])
  {
    hide LogOk;
    var n := |w.turns| - 1;
    assert TurnConsistent(w.turns[n]);
    if w.turns[n].pc.Ended? {
      VictimGone(w);
    }
  }

  lemma NoStepBack(w: World, other: Step)
    requires Inv(w) && Cancelling(w.loop) && Enabled(w, other)
    ensures |w.turns| > 0
    ensures var n := |w.turns| - 1; var w' := Do(w, other);
      w'.loop == w.loop ==> |w'.turns| == |w.turns| && CancelRank(w'.turns[n]) <= CancelRank(w.turns[n])
  {
    hide LogOk;
    assert |w.turns| > 0 && TurnConsistent(w.turns[|w.turns| - 1]);
  }

  // ---------------------------------------------------------------------------
  // A turn that dies of an uncaught exception

  /** The phase still says active, but no turn is left to finish it. */
  ghost predicate Stranded(w: World) {
    w.session.phase != Listening && forall t | 0 <= t < |w.turns| :: !Unfinished(w.turns[t])
  }

  /**
   The step ends a turn short of finish_turn: a send raises, a cancellation is
   delivered, the think task ends in neither a reply nor a BackendChatError, or the
   speak task does not return.
   */
  predicate Kills(w: World, step: Step)
    requires Enabled(w, step)
  {
    match step
    case TurnSendRaises(t) => Unfinished(w.turns[t])
    case TurnCancelled(t) => Unfinished(w.turns[t])
    case TurnResume(t) =>
      var turn := w.turns[t];
      || turn.cancelling
      || (turn.pc.AwaitingThink? && (turn.think.outcome.Raised? || turn.think.outcome.WasCancelled?))
      || (turn.pc.AwaitingSpeak? && !turn.speak.outcome.Returned?)
    case _ => false
  }

  /**
   A step strands a session exactly if it ends an unfinished turn while the session
   is active. Unless the loop is cancelling that turn, it always is, and the turn
   died of its own: no cancellation was under way.
   */
  lemma StrandsExactly(w: World, step: Step)
    requires Inv(w) && Enabled(w, step) && !Stranded(w)
    ensures Stranded(Do(w, step)) <==> w.session.phase != Listening && Kills(w, step)
    ensures !Cancelling(w.loop) && !w.loop.ClosingTurn? && Kills(w, step) ==>
      w.session.phase != Listening && !step.TurnCancelled? && !w.turns[step.turn].cancelling
  {
    hide LogOk;
    if Kills(w, step) {
      KillsTheOne(w, step);
    } else if w.session.phase != Listening {
      SparesTheOne(w, step);
    } else {
      WakesOne(w, step);
    }
  }

  lemma KillsTheOne(w: World, step: Step)
    requires Inv(w) && Enabled(w, step) && Kills(w, step)
    ensures Do(w, step).session == w.session
    ensures forall t | 0 <= t < |Do(w, step).turns| :: !Unfinished(Do(w, step).turns[t])
    ensures !Cancelling(w.loop) ==> w.session.phase != Listening
    ensures !Cancelling(w.loop) && !w.loop.ClosingTurn? ==> !step.TurnCancelled? && !w.turns[step.turn].cancelling
  {
    hide LogOk;
    assert Unfinished(w.turns[step.turn]) && w.session.turnRef == Some(step.turn);
  }

  /** Any other step of an active session leaves its turn unfinished, or the session idle. */
  lemma SparesTheOne(w: World, step: Step)
    requires Inv(w) && Enabled(w, step) && !Kills(w, step) && !Stranded(w) && w.session.phase != Listening
    ensures !Stranded(Do(w, step))
  {
    hide LogOk;
    var t :| 0 <= t < |w.turns| && Unfinished(w.turns[t]);
    assert w.session.turnRef == Some(t) && TurnConsistent(w.turns[t]);
    var w' := Do(w, step);
    assert w'.session.phase == Listening || (t < |w'.turns| && Unfinished(w'.turns[t]));
  }

  /** An idle session becomes active only with a turn. */
  lemma WakesOne(w: World, step: Step)
    requires Inv(w) && Enabled(w, step) && w.session.phase == Listening
    ensures !Stranded(Do(w, step))
  {
    hide LogOk;
    var w' := Do(w, step);
    match step {
      case LoopSent => assert w'.session.phase == Listening || Unfinished(w'.turns[|w.turns|]);
      case TurnSent(t) => assert w'.session.phase == Listening || Unfinished(w'.turns[t]);
      case _ =>
    }
  }

  /** Only a speech_start frees a stranded session; until then every transcript is ignored. */
  lemma StrandedUntilSpeechStart(w: World, step: Step)
    requires Inv(w) && Stranded(w) && Enabled(w, step)
    ensures step == Get(SpeechStart) ==> Do(w, step).session.phase == Listening && Do(w, step).loop.SendingBargeIn?
    ensures step != Get(SpeechStart) ==>
      Stranded(Do(w, step)) && Do(w, step).session.phase == w.session.phase && |Do(w, step).turns| == |w.turns|
  {
    hide LogOk;
    if step == Get(SpeechStart) {
      BargeInBegins(w);
    } else if w.loop.CancellingTurn? && step.LoopResume? {
      VictimGone(w);
    }
  }

  predicate NoSpeechStart(steps: seq<Step>) {
    Get(SpeechStart) !in steps
  }

  /** Somewhere in the run a turn is ended in an active session, and no speech_start comes after. */
  predicate StrandsForGood(w: World, steps: seq<Step>)
    requires IsRun(w, steps)
    decreases |steps|
  {
    steps != [] &&
    ((w.session.phase != Listening && Kills(w, steps[0]) && NoSpeechStart(steps[1..]))
      || StrandsForGood(Do(w, steps[0]), steps[1..]))
  }

  lemma {:induction false} StrandedAfter(w: World, steps: seq<Step>)
    requires Inv(w) && IsRun(w, steps)
    ensures Stranded(After(w, steps)) <==> (Stranded(w) && NoSpeechStart(steps)) || StrandsForGood(w, steps)
    decreases |steps|
  {
    if steps != [] {
      var w1 := Do(w, steps[0]);
      assert steps == [steps[0]] + steps[1..];
      StepKeepsInv(w, steps[0]);
      StrandedAfter(w1, steps[1..]);
      if Stranded(w) {
        StrandedUntilSpeechStart(w, steps[0]);
        hide Inv, Do;
        assert !Kills(w, steps[0]);
      } else {
        StrandsExactly(w, steps[0]);
      }
      hide Inv, Stranded, Do, Enabled, Kills;
    }
  }

  /**
   A run leaves the session stranded exactly if some step of it ended a turn short of
   finish_turn in an active session, and no speech_start was taken after that.
   */
  lemma StrandedExactly(steps: seq<Step>)
    requires IsRun(INITIAL_WORLD, steps)
    ensures Stranded(After(INITIAL_WORLD, steps)) <==> StrandsForGood(INITIAL_WORLD, steps)
  {
    StrandedAfter(INITIAL_WORLD, steps);
  }

  // ---------------------------------------------------------------------------
  // Runs, built step by step

  lemma {:induction false} RunOn(w: World, a: seq<Step>, b: seq<Step>)
    requires IsRun(w, a) && IsRun(After(w, a), b)
    ensures IsRun(w, a + b) && After(w, a + b) == After(After(w, a), b)
    decreases |a|
  {
    hide Do, Enabled;
    if a == [] {
      assert a + b == b;
    } else {
      assert (a + b)[0] == a[0] && (a + b)[1..] == a[1..] + b;
      RunOn(Do(w, a[0]), a[1..], b);
    }
  }

  lemma RunOne(w: World, step: Step)
    requires Enabled(w, step)
    ensures IsRun(w, [step]) && After(w, [step]) == Do(w, step)
  {
    assert [step][1..] == [];
  }

  /** A run from the start, and one more step. */
  lemma Then(w: World, steps: seq<Step>, step: Step) returns (w': World, more: seq<Step>)
    requires IsRun(INITIAL_WORLD, steps) && After(INITIAL_WORLD, steps) == w && Enabled(w, step)
    ensures IsRun(INITIAL_WORLD, more) && After(INITIAL_WORLD, more) == w' == Do(w, step)
  {
    RunOne(w, step);
    RunOn(INITIAL_WORLD, steps, [step]);
    w', more := Do(w, step), steps + [step];
  }

  const FRESH_TURN := Turn(NotStarted, false, NotCreated, NotCreated)

  /** From an idle session, a confident transcript creates a turn. */
  lemma TurnCreated(w: World, steps: seq<Step>) returns (w': World, more: seq<Step>)
    requires IsRun(INITIAL_WORLD, steps) && After(INITIAL_WORLD, steps) == w
    requires w.loop.Waiting? && w.session.phase == Listening
    ensures IsRun(INITIAL_WORLD, more) && After(INITIAL_WORLD, more) == w'
    ensures w'.loop.Waiting? && w'.session == Register(EnterPhase(w.session, Thinking), |w.turns|)
    ensures w'.turns == w.turns + [FRESH_TURN]
  {
    hide After, IsRun, INITIAL_WORLD;
    w', more := Then(w, steps, Get(FinalTranscript(false)));
    w', more := Then(w', more, LoopEmit);
    w', more := Then(w', more, LoopSent);
  }

  lemma NothingYet() returns (w: World)
    ensures IsRun(INITIAL_WORLD, []) && After(INITIAL_WORLD, []) == w
    ensures w.loop.Waiting? && w.session == INITIAL_VIEW && w.turns == []
  {
    w := INITIAL_WORLD;
  }

  /** Uncaught exceptions do strand a session: here the backend call raises something unexpected. */
  lemma RaisingTurnStrands() returns (steps: seq<Step>)
    ensures IsRun(INITIAL_WORLD, steps) && Stranded(After(INITIAL_WORLD, steps))
  {
    var w := NothingYet();
    hide After, IsRun, INITIAL_WORLD;
    w, steps := TurnCreated(w, []);
    w, steps := Then(w, steps, TurnStart(0));
    w, steps := Then(w, steps, ThinkEnds(0, Raised));
    w, steps := Then(w, steps, TurnResume(0));
  }

  /** A turn that swallowed the cancellation of its think task, and now speaks; the barge-in is still waiting for it. */
  lemma ThoughtOn() returns (w: World, steps: seq<Step>)
    ensures IsRun(INITIAL_WORLD, steps) && After(INITIAL_WORLD, steps) == w
    ensures w.loop == CancellingTurn(Some(0)) && |w.turns| == 1 && w.session.phase == Speaking
    ensures w.session.thinkRef == w.session.speakRef == Some(0)
    ensures w.turns[0] == Turn(AwaitingSpeak, false, Done(Returned), Running(false))
  {
    w := NothingYet();
    hide After, IsRun, INITIAL_WORLD;
    w, steps := TurnCreated(w, []);
    w, steps := Then(w, steps, TurnStart(0));
    w, steps := Then(w, steps, Get(SpeechStart));
    w, steps := Then(w, steps, ThinkEnds(0, Returned));
    w, steps := Then(w, steps, TurnResume(0));
    w, steps := Then(w, steps, TurnEmit(0));
    w, steps := Then(w, steps, TurnSent(0));
  }

  /** When that turn then dies, the barge-in leaves a busy session behind. */
  lemma SwallowedCancelStrands() returns (steps: seq<Step>)
    ensures IsRun(INITIAL_WORLD, steps)
    ensures After(INITIAL_WORLD, steps).loop.SendingBargeIn? && Stranded(After(INITIAL_WORLD, steps))
  {
    var w;
    w, steps := ThoughtOn();
    hide After, IsRun, INITIAL_WORLD;
    w, steps := Then(w, steps, SpeakEnds(0, Raised));
    w, steps := Then(w, steps, TurnResume(0));
    w, steps := Then(w, steps, LoopResume);
  }

  // ---------------------------------------------------------------------------
  // Teardown

  /**
   When the socket is closed, every task of the session is done if and only if
   no turn before the newest was still sending its turn_complete.
   */
  lemma ClosedMeansDone(steps: seq<Step>)
    requires IsRun(INITIAL_WORLD, steps) && After(INITIAL_WORLD, steps).loop.Closed?
    ensures var w := After(INITIAL_WORLD, steps);
      (forall t | 0 <= t < |w.turns| ::
        w.turns[t].pc.Ended? && !w.turns[t].think.Running? && !w.turns[t].speak.Running?)
      <==> (forall t | 0 <= t < |w.turns| - 1 :: !w.turns[t].pc.SendingComplete?)
  {
    RunKeepsInv(INITIAL_WORLD, steps);
  }

  /** A first turn that has spoken and is sending its turn_complete, in a session that is idle again. */
  lemma FirstTurnSpoke() returns (w: World, steps: seq<Step>)
    ensures IsRun(INITIAL_WORLD, steps) && After(INITIAL_WORLD, steps) == w
    ensures w.loop.Waiting? && w.session.phase == Listening && |w.turns| == 1
    ensures w.turns[0].pc == SendingComplete(false) && !w.turns[0].cancelling
  {
    w := NothingYet();
    hide After, IsRun, INITIAL_WORLD;
    w, steps := TurnCreated(w, []);
    w, steps := Then(w, steps, TurnStart(0));
    w, steps := Then(w, steps, ThinkEnds(0, Returned));
    w, steps := Then(w, steps, TurnResume(0));
    w, steps := Then(w, steps, TurnEmit(0));
    w, steps := Then(w, steps, TurnSent(0));
    w, steps := Then(w, steps, SpeakEnds(0, Returned));
    w, steps := Then(w, steps, TurnResume(0));
  }

  /** A run that closes the socket while the first of two turns is still sending its turn_complete. */
  lemma ClosedWhileSending() returns (steps: seq<Step>)
    ensures IsRun(INITIAL_WORLD, steps)
    ensures var w := After(INITIAL_WORLD, steps);
      w.loop.Closed? && |w.turns| == 2 && w.turns[0].pc.SendingComplete? && Enabled(w, TurnEmit(0))
  {
    var w;
    w, steps := FirstTurnSpoke();
    hide After, IsRun, INITIAL_WORLD;
    w, steps := TurnCreated(w, steps);
    w, steps := Then(w, steps, Get(StreamEnded));
    w, steps := Then(w, steps, LoopResume);
    w, steps := Then(w, steps, TurnCancelled(1));
    w, steps := Then(w, steps, LoopResume);
  }
}
