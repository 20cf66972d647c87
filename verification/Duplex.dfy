/**
 The barge-in state of one voice session: the phase machine of
 supervisor/session_state_machine.py inside the session object of
 speech_gateway/duplex_session.py. A turn's three tasks (whole turn, think, speak) are
 named by the turn's number. `SessionView` is the session's abstract value; the
 functions on it specify the class methods and are the atomic steps of module Converse.
 */
module Duplex {
  import opened Options

  datatype Phase = Listening | Thinking | Speaking

  datatype SessionView = SessionView(
    phase: Phase,
    tokenGeneration: nat,   // which cancellation token is installed
    tokenCancelled: bool,
    events: nat,            // barge_in_detected events recorded so far
    thinkRef: Option<nat>,  // _task_agent_task
    speakRef: Option<nat>,  // _tts_task
    turnRef: Option<nat>)   // _turn_task

  const INITIAL_VIEW := SessionView(Listening, 0, false, 0, None, None, None)

  function EnterPhase(v: SessionView, phase: Phase): SessionView {
    v.(phase := phase)
  }

  function Register(v: SessionView, turn: nat): SessionView {
    v.(turnRef := Some(turn))
  }

  function StartThinking(v: SessionView, turn: nat): SessionView {
    v.(phase := Thinking, thinkRef := Some(turn))
  }

  function StartSpeaking(v: SessionView, turn: nat): SessionView {
    v.(phase := Speaking, speakRef := Some(turn))
  }

  function FinishTurn(v: SessionView): SessionView {
    SessionView(Listening, v.tokenGeneration + 1, false, v.events, None, None, None)
  }

  /** The part of handle_vad_speech_start before its first await. */
  function BeginBargeIn(v: SessionView): SessionView {
    v.(phase := Listening, tokenCancelled := v.tokenCancelled || v.phase != Listening)
  }

  /** The part of handle_vad_speech_start after its last await. */
  function EndBargeIn(v: SessionView): SessionView {
    v.(thinkRef := None, speakRef := None, turnRef := None,
       tokenGeneration := v.tokenGeneration + 1, tokenCancelled := false,
       events := v.events + 1)
  }

  class SessionStateMachine {
    var phase: Phase

    constructor ()
      ensures phase == Listening
    {
      phase := Listening;
    }

    method TransitionTo(next: Phase)
      modifies this
      ensures phase == next
    {
      phase := next;
    }

    /** Listening from any phase; tells whether something was interrupted. */
    method BargeIn() returns (wasActive: bool)
      modifies this
      ensures phase == Listening
      ensures wasActive <==> old(phase) != Listening
    {
      wasActive := phase == Thinking || phase == Speaking;
      phase := Listening;
    }
  }

  class DuplexSession {
    const state: SessionStateMachine
    var tokenGeneration: nat
    var tokenCancelled: bool
    var events: nat
    var thinkRef: Option<nat>
    var speakRef: Option<nat>
    var turnRef: Option<nat>

    ghost function View(): SessionView
      reads this, state
    {
      SessionView(state.phase, tokenGeneration, tokenCancelled, events, thinkRef, speakRef, turnRef)
    }

    constructor ()
      ensures fresh(state)
      ensures View() == INITIAL_VIEW
    {
      state := new SessionStateMachine();
      tokenGeneration, tokenCancelled, events := 0, false, 0;
      thinkRef, speakRef, turnRef := None, None, None;
    }

    method RegisterTurnTask(turn: nat)
      modifies this
      ensures View() == Register(old(View()), turn)
    {
      turnRef := Some(turn);
    }

    method StartThinkingTask(turn: nat)
      modifies this, state
      ensures View() == StartThinking(old(View()), turn)
    {
      state.TransitionTo(Thinking);
      thinkRef := Some(turn);
    }

    method StartSpeakingTask(turn: nat)
      modifies this, state
      ensures View() == StartSpeaking(old(View()), turn)
    {
      state.TransitionTo(Speaking);
      speakRef := Some(turn);
    }

    method Finish()
      modifies this, state
      ensures View() == FinishTurn(old(View()))
    {
      thinkRef, speakRef, turnRef := None, None, None;
      tokenGeneration, tokenCancelled := tokenGeneration + 1, false;
      state.TransitionTo(Listening);
    }

    /** handle_vad_speech_start up to its first await: true iff tasks must now be cancelled. */
    method SpeechStartBegin() returns (wasActive: bool)
      modifies this, state
      ensures wasActive <==> old(View()).phase != Listening
      ensures View() == BeginBargeIn(old(View()))
      ensures !wasActive ==> View() == old(View())
    {
      wasActive := state.BargeIn();
      if !wasActive {
        return;
      }
      tokenCancelled := true;
    }

    /** handle_vad_speech_start after the three tasks have been cancelled and awaited. */
    method SpeechStartEnd()
      modifies this, state
      ensures View() == EndBargeIn(old(View()))
    {
      thinkRef, speakRef, turnRef := None, None, None;
      tokenGeneration, tokenCancelled := tokenGeneration + 1, false;
      events := events + 1;
    }
  }
}
