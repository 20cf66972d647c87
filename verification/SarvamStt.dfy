/**
 `SarvamSTTClient.stream` (speech/sarvam_stt.py): while audio flows, one receive is
 raced against the audio pump; once the pump is done, receives are bounded by a timeout.
 */
module SarvamStt {
  import opened Options

  /** One decoded socket message, and what `_translate_event` makes of it. */
  datatype Raw =
    | DataMessage(text: string, probability: Option<real>)
    | StartSpeech
    | EndSpeech
    | OtherSignal
    | ErrorMessage(reason: Option<string>)
    | UnknownMessage

  datatype SttEvent =
    | Transcript(text: string, isFinal: bool, confidence: Option<real>)
    | SpeechStarted
    | SpeechEnded
    | SttError(reason: string)

  const UNKNOWN_REASON := "unknown Sarvam STT error"

  function Translate(m: Raw): Option<SttEvent> {
    match m
    case DataMessage(text, p) => Some(Transcript(text, true, p))
    case StartSpeech => Some(SpeechStarted)
    case EndSpeech => Some(SpeechEnded)
    case OtherSignal => None
    case ErrorMessage(reason) => Some(SttError(if reason.Some? then reason.value else UNKNOWN_REASON))
    case UnknownMessage => None
  }

  function TranslateAll(ms: seq<Raw>): seq<SttEvent> {
    if ms == [] then [] else Yielded(ms[0]) + TranslateAll(ms[1..])
  }

  function Yielded(m: Raw): seq<SttEvent> {
    if Translate(m).Some? then [Translate(m).value] else []
  }

  /** How a stream ends: no more in time, a clean close, or an error. */
  datatype LoopPc = Top | Racing | Unwinding | Bounded | UnwindingTimeout | TimedOut | ClosedCleanly | Failed

  /** What the receive the loop started came back with. */
  datatype Result = NotYet | Got(message: Raw) | ClosedOk | ClosedBadly

  datatype State = State(
    loop: LoopPc,
    pumpDone: bool,
    inFlight: nat,          // receives currently running on the socket
    result: Result,
    arrived: seq<Raw>,      // everything the server has sent
    waiting: seq<Raw>,      // what no receive has taken yet
    handled: seq<Raw>,      // what the loop has translated
    yielded: seq<SttEvent>)

  const INITIAL_STATE := State(Top, false, 0, NotYet, [], [], [], [])

  datatype Step =
    | Arrive(message: Raw)
    | PumpEnds
    | StartReceive            // top of the loop: begin the next receive
    | ReceiveCompletes        // the running receive takes the first waiting message
    | ReceiveCloses(clean: bool)
    | Wake                    // the race or the bounded wait is over
    | TimesOut
    | ReceiveUnwinds          // a cancelled receive has stopped

  predicate Enabled(s: State, step: Step) {
    match step
    case Arrive(_) => true
    case PumpEnds => !s.pumpDone
    case StartReceive => s.loop.Top?
    case ReceiveCompletes => s.inFlight > 0 && (s.loop.Racing? || s.loop.Bounded?) && s.result.NotYet?
      && s.waiting != []
    case ReceiveCloses(_) => s.inFlight > 0 && (s.loop.Racing? || s.loop.Bounded?) && s.result.NotYet?
    case Wake => (s.loop.Racing? && (!s.result.NotYet? || s.pumpDone)) || (s.loop.Bounded? && !s.result.NotYet?)
    case TimesOut => s.loop.Bounded? && s.result.NotYet?
    case ReceiveUnwinds => s.inFlight > 0 && (s.loop.Unwinding? || s.loop.UnwindingTimeout?)
  }

  /** The loop body after a receive: translate, yield, go round again. */
  function Handle(s: State): State {
    match s.result
    case Got(m) =>
      s.(loop := Top, result := NotYet, handled := s.handled + [m],
         yielded := s.yielded + (if Translate(m).Some? then [Translate(m).value] else []))
    case ClosedOk => s.(loop := ClosedCleanly)
    case ClosedBadly => s.(loop := Failed)
    case NotYet => s.(loop := Unwinding)  // only in the race: the pump ended first, so cancel the receive
  }

  function Do(s: State, step: Step): State
    requires Enabled(s, step)
  {
    match step
    case Arrive(m) => s.(arrived := s.arrived + [m], waiting := s.waiting + [m])
    case PumpEnds => s.(pumpDone := true)
    case StartReceive => s.(loop := if s.pumpDone then Bounded else Racing, inFlight := s.inFlight + 1)
    case ReceiveCompletes => s.(inFlight := s.inFlight - 1, result := Got(s.waiting[0]), waiting := s.waiting[1..])
    case ReceiveCloses(clean) => s.(inFlight := s.inFlight - 1, result := if clean then ClosedOk else ClosedBadly)
    case Wake => Handle(s)
    case TimesOut => s.(loop := UnwindingTimeout)
    case ReceiveUnwinds => s.(inFlight := s.inFlight - 1, loop := if s.loop.Unwinding? then Top else TimedOut)
  }

  predicate IsRun(s: State, steps: seq<Step>)
    decreases |steps|
  {
    steps == [] || (Enabled(s, steps[0]) && IsRun(Do(s, steps[0]), steps[1..]))
  }

  function After(s: State, steps: seq<Step>): State
    requires IsRun(s, steps)
    decreases |steps|
  {
    if steps == [] then s else After(Do(s, steps[0]), steps[1..])
  }

  function Taken(r: Result): seq<Raw> {
    if r.Got? then [r.message] else []
  }

  predicate ControlOk(s: State) {
    && s.inFlight == (if s.loop.Unwinding? || s.loop.UnwindingTimeout? then 1
                      else if s.loop.Racing? || s.loop.Bounded? then (if s.result.NotYet? then 1 else 0)
                      else 0)
    && (s.loop.Top? || s.loop.Unwinding? || s.loop.UnwindingTimeout? || s.loop.TimedOut? ==> s.result.NotYet?)
    && (s.loop.Bounded? || s.loop.Unwinding? || s.loop.UnwindingTimeout? || s.loop.TimedOut? ==> s.pumpDone)
    && (s.loop.ClosedCleanly? ==> s.result.ClosedOk?)
    && (s.loop.Failed? ==> s.result.ClosedBadly?)
  }

  /** Nothing is lost, doubled or reordered between the socket and the caller. */
  predicate DataOk(s: State) {
    && s.handled + Taken(s.result) + s.waiting == s.arrived
    && s.yielded == TranslateAll(s.handled)
  }

  predicate Inv(s: State) {
    ControlOk(s) && DataOk(s)
  }

  lemma {:induction false} TranslateSnoc(ms: seq<Raw>, m: Raw)
    ensures TranslateAll(ms + [m]) == TranslateAll(ms) + Yielded(m)
  {
    hide Yielded;
    var all := ms + [m];
    if ms == [] {
      assert all[0] == m && all[1..] == [];
    } else {
      assert all[0] == ms[0] && all[1..] == ms[1..] + [m];
      TranslateSnoc(ms[1..], m);
      assert Yielded(ms[0]) + (TranslateAll(ms[1..]) + Yielded(m))
        == (Yielded(ms[0]) + TranslateAll(ms[1..])) + Yielded(m);
    }
  }

  lemma StepKeepsControl(s: State, step: Step)
    requires ControlOk(s) && Enabled(s, step)
    ensures ControlOk(Do(s, step))
  {
  }

  lemma ArriveKeepsData(s: State, m: Raw)
    requires DataOk(s)
    ensures DataOk(Do(s, Arrive(m)))
  {
    assert s.handled + Taken(s.result) + (s.waiting + [m]) == (s.handled + Taken(s.result) + s.waiting) + [m];
  }

  lemma ReceiveKeepsData(s: State)
    requires DataOk(s) && Enabled(s, ReceiveCompletes)
    ensures DataOk(Do(s, ReceiveCompletes))
  {
    assert s.handled + Taken(s.result) == s.handled;
    assert s.handled + [s.waiting[0]] + s.waiting[1..] == s.handled + s.waiting;
  }

  lemma WakeKeepsData(s: State)
    requires ControlOk(s) && DataOk(s) && Enabled(s, Wake)
    ensures DataOk(Handle(s))
  {
    if s.result.Got? {
      TranslateSnoc(s.handled, s.result.message);
      assert s.handled + [s.result.message] + [] + s.waiting == s.handled + [s.result.message] + s.waiting;
    }
  }

  lemma StepKeepsInv(s: State, step: Step)
    requires Inv(s) && Enabled(s, step)
    ensures Inv(Do(s, step))
  {
    StepKeepsControl(s, step);
    hide ControlOk;
    match step {
      case Arrive(m) => ArriveKeepsData(s, m);
      case ReceiveCompletes => ReceiveKeepsData(s);
      case Wake => WakeKeepsData(s);
      case _ =>
    }
  }

  lemma {:induction false} RunKeepsInv(s: State, steps: seq<Step>)
    requires Inv(s) && IsRun(s, steps)
    ensures Inv(After(s, steps))
    decreases |steps|
  {
    if steps != [] {
      StepKeepsInv(s, steps[0]);
      RunKeepsInv(Do(s, steps[0]), steps[1..]);
    }
  }

  /** The socket never sees two receives at once, and none is left when the loop goes round or ends. */
  lemma SingleReader(steps: seq<Step>)
    requires IsRun(INITIAL_STATE, steps)
    ensures var s := After(INITIAL_STATE, steps);
      && s.inFlight <= 1
      && (s.loop.Top? || s.loop.TimedOut? || s.loop.ClosedCleanly? || s.loop.Failed? ==> s.inFlight == 0)
  {
    RunKeepsInv(INITIAL_STATE, steps);
  }

  /** Each message taken off the socket is translated and yielded once, in arrival order, none skipped. */
  lemma EveryMessageOnce(steps: seq<Step>)
    requires IsRun(INITIAL_STATE, steps)
    ensures var s := After(INITIAL_STATE, steps);
      && s.handled + Taken(s.result) + s.waiting == s.arrived
      && s.yielded == TranslateAll(s.handled)
      && (s.loop in {Top, TimedOut, ClosedCleanly, Failed} ==> s.handled + s.waiting == s.arrived)
  {
    RunKeepsInv(INITIAL_STATE, steps);
  }

  /** What a message of the service means to the caller. */
  predicate Means(m: Raw, e: SttEvent) {
    || (m.DataMessage? && e == Transcript(m.text, true, m.probability))
    || (m.StartSpeech? && e == SpeechStarted)
    || (m.EndSpeech? && e == SpeechEnded)
    || (m.ErrorMessage? && e == SttError(if m.reason.Some? then m.reason.value else "unknown Sarvam STT error"))
  }

  /** The messages that mean something: all but other signals and unknown types. */
  function Meaning(ms: seq<Raw>): seq<Raw> {
    if ms == [] then []
    else (if ms[0].OtherSignal? || ms[0].UnknownMessage? then [] else [ms[0]]) + Meaning(ms[1..])
  }

  predicate Pairwise(ms: seq<Raw>, es: seq<SttEvent>) {
    |es| == |ms| && forall k | 0 <= k < |ms| :: Means(ms[k], es[k])
  }

  lemma {:induction false} TranslatedPairwise(ms: seq<Raw>)
    ensures Pairwise(Meaning(ms), TranslateAll(ms))
  {
    if ms != [] {
      TranslatedPairwise(ms[1..]);
      assert Yielded(ms[0]) == [] || Means(ms[0], Yielded(ms[0])[0]);
    }
  }

  /** In every run, what is yielded is one event for each handled message that means something: the one it means. */
  lemma EventsSayMessages(steps: seq<Step>)
    requires IsRun(INITIAL_STATE, steps)
    ensures var s := After(INITIAL_STATE, steps); Pairwise(Meaning(s.handled), s.yielded)
  {
    EveryMessageOnce(steps);
    TranslatedPairwise(After(INITIAL_STATE, steps).handled);
  }

  /** The loop gives up waiting only after the audio has ended; before, only the socket can end it. */
  lemma GivesUpOnlyAfterAudio(steps: seq<Step>)
    requires IsRun(INITIAL_STATE, steps)
    ensures var s := After(INITIAL_STATE, steps);
      && (s.loop.TimedOut? ==> s.pumpDone)
      && (s.loop.ClosedCleanly? ==> s.result.ClosedOk?) && (s.loop.Failed? ==> s.result.ClosedBadly?)
  {
    RunKeepsInv(INITIAL_STATE, steps);
  }

  // ---------------------------------------------------------------------------
  // How a stream ends

  /** What the run so far has decided: the pump, the time-out, and how the socket was closed. */
  predicate EndsOk(s: State, pumped: bool, timedOut: bool, closed: bool, broken: bool) {
    && s.pumpDone == pumped
    && (timedOut <==> s.loop.UnwindingTimeout? || s.loop.TimedOut?)
    && (closed <==> s.result.ClosedOk?) && (broken <==> s.result.ClosedBadly?)
    && (s.result.ClosedOk? ==> s.loop.Racing? || s.loop.Bounded? || s.loop.ClosedCleanly?)
    && (s.result.ClosedBadly? ==> s.loop.Racing? || s.loop.Bounded? || s.loop.Failed?)
  }

  lemma StepEnds(s: State, step: Step, pumped: bool, timedOut: bool, closed: bool, broken: bool)
    requires ControlOk(s) && Enabled(s, step) && EndsOk(s, pumped, timedOut, closed, broken)
    ensures EndsOk(Do(s, step), pumped || step == PumpEnds, timedOut || step == TimesOut,
              closed || step == ReceiveCloses(true), broken || step == ReceiveCloses(false))
  {
  }

  lemma {:induction false} RunEnds(s: State, steps: seq<Step>, pumped: bool, timedOut: bool, closed: bool, broken: bool)
    requires Inv(s) && IsRun(s, steps) && EndsOk(s, pumped, timedOut, closed, broken)
    ensures EndsOk(After(s, steps), pumped || PumpEnds in steps, timedOut || TimesOut in steps,
              closed || ReceiveCloses(true) in steps, broken || ReceiveCloses(false) in steps)
    decreases |steps|
  {
    hide Inv, Enabled, Do, EndsOk;
    if steps != [] {
      var first, rest := steps[0], steps[1..];
      assert steps == [first] + rest;
      ControlOf(s);
      StepEnds(s, first, pumped, timedOut, closed, broken);
      StepKeepsInv(s, first);
      RunEnds(Do(s, first), rest, pumped || first == PumpEnds, timedOut || first == TimesOut,
        closed || first == ReceiveCloses(true), broken || first == ReceiveCloses(false));
    }
  }

  lemma ControlOf(s: State)
    requires Inv(s)
    ensures ControlOk(s)
  {
  }

  /**
   How the stream ends, in every run: by a time-out exactly if one was taken, and then
   the audio had ended before; cleanly only if the socket was closed cleanly, and by an
   error only if it was not; and a loop that has found the socket closed takes nothing more.
   */
  lemma EndsExactly(steps: seq<Step>)
    requires IsRun(INITIAL_STATE, steps)
    ensures var s := After(INITIAL_STATE, steps);
      && (TimesOut in steps <==> s.loop.UnwindingTimeout? || s.loop.TimedOut?)
      && (TimesOut in steps ==> PumpEnds in steps)
      && (s.loop.ClosedCleanly? ==> ReceiveCloses(true) in steps)
      && (s.loop.Failed? ==> ReceiveCloses(false) in steps)
      && (ReceiveCloses(true) in steps ==> s.loop.Racing? || s.loop.Bounded? || s.loop.ClosedCleanly?)
      && (ReceiveCloses(false) in steps ==> s.loop.Racing? || s.loop.Bounded? || s.loop.Failed?)
  {
    RunKeepsInv(INITIAL_STATE, steps);
    RunEnds(INITIAL_STATE, steps, false, false, false, false);
    hide INITIAL_STATE, After, IsRun;
  }

  /**
   A receive is begun without a bound exactly as long as the audio has not ended; and a
   race that the end of the audio wins gives its receive up and goes round again.
   */
  lemma BoundedExactly(steps: seq<Step>)
    requires IsRun(INITIAL_STATE, steps)
    ensures var s := After(INITIAL_STATE, steps);
      && (Enabled(s, StartReceive) ==> Do(s, StartReceive).loop == if PumpEnds in steps then Bounded else Racing)
      && (s.loop.Racing? && s.result.NotYet? ==> (Enabled(s, Wake) <==> PumpEnds in steps))
      && (s.loop.Racing? && s.result.NotYet? && Enabled(s, Wake) ==>
            var s' := Do(s, Wake); Enabled(s', ReceiveUnwinds) && Do(s', ReceiveUnwinds).loop == Top)
  {
    RunKeepsInv(INITIAL_STATE, steps);
    RunEnds(INITIAL_STATE, steps, false, false, false, false);
    hide INITIAL_STATE, After, IsRun;
  }
}
