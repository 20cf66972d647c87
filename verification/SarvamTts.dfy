/**
 `SarvamTTSClient.synthesize` (speech/sarvam_tts.py): a text pump beside a receive loop
 on one socket, over a server that answers flushes first in, first out.
 */
module SarvamTts {
  datatype Voice = Voice(chunks: nat, audio: nat -> seq<nat>)

  datatype ClientMessage = TextMessage(chunk: nat) | FlushMessage
  datatype ServerMessage = AudioMessage(audio: nat) | FinalMessage | OtherMessage | ErrorMessage

  /** Where the pump is suspended; `out` says the message being sent has entered the socket. */
  datatype PumpPc = AwaitingChunk | SendingText(out: bool) | SendingFlush(out: bool) | PumpDone

  datatype LoopPc = Receiving | Finished | RaisedError

  datatype Job = NoJob | Job(rest: seq<nat>)

  datatype State = State(
    pump: PumpPc,
    next: nat,                    // the chunk being pumped
    chunksFlushed: nat,
    sendError: bool,
    flushesPut: nat,              // flushes that have entered the socket
    textPut: bool,                // a text has entered the socket and its flush has not
    toServer: seq<ClientMessage>,
    unflushed: seq<nat>,          // chunks the server has buffered
    job: Job,                     // the flush the server is answering
    toClient: seq<ServerMessage>,
    loop: LoopPc,
    finalsReceived: nat,
    yielded: seq<nat>)

  const INITIAL_STATE := State(AwaitingChunk, 0, 0, false, 0, false, [], [], NoJob, [], Receiving, 0, [])

  datatype Step =
    | ChunkArrives            // the caller's iterator yields the next chunk
    | ChunksEnd
    | ChunksFail
    | PumpPuts                // the message being sent enters the socket
    | PumpSent                // its send returns
    | PumpSendFails
    | ServerTakes
    | ServerAnswers
    | ServerInterjects(m: ServerMessage)
    | Receive
    | ReceiveTimesOut
    | ReceiveFails            // the connection closes

  predicate SendDone(s: State) { s.pump.PumpDone? }

  predicate Enabled(v: Voice, s: State, step: Step) {
    match step
    case ChunkArrives => s.pump.AwaitingChunk? && s.next < v.chunks
    case ChunksEnd => s.pump.AwaitingChunk? && s.next == v.chunks
    case ChunksFail => s.pump.AwaitingChunk?
    case PumpPuts => (s.pump.SendingText? || s.pump.SendingFlush?) && !s.pump.out
    case PumpSent => (s.pump.SendingText? || s.pump.SendingFlush?) && s.pump.out
    case PumpSendFails => s.pump.SendingText? || s.pump.SendingFlush?
    case ServerTakes => s.job.NoJob? && s.toServer != []
    case ServerAnswers => s.job.Job?
    case ServerInterjects(m) => m.OtherMessage? || m.ErrorMessage?
    case Receive => s.loop.Receiving? && s.toClient != []
    case ReceiveTimesOut => s.loop.Receiving?
    case ReceiveFails => s.loop.Receiving?
  }

  /** Leaving the receive loop: a pump error is raised only now. */
  function LeaveLoop(s: State): State {
    s.(loop := if s.sendError then RaisedError else Finished)
  }

  function OnMessage(s: State, m: ServerMessage): State {
    match m
    case AudioMessage(a) => s.(yielded := s.yielded + [a])
    case ErrorMessage => s.(loop := RaisedError)
    case OtherMessage => s
    case FinalMessage =>
      var counted := s.(finalsReceived := s.finalsReceived + 1);
      if SendDone(s) && counted.finalsReceived >= s.chunksFlushed then LeaveLoop(counted) else counted
  }

  function AudioOf(v: Voice, chunks: seq<nat>): seq<nat> {
    if chunks == [] then [] else v.audio(chunks[0]) + AudioOf(v, chunks[1..])
  }

  /** The server reads a message: text is buffered, a flush starts the answer to the buffered text. */
  function TakeMessage(v: Voice, s: State): State
    requires s.toServer != []
  {
    match s.toServer[0]
    case TextMessage(i) => s.(toServer := s.toServer[1..], unflushed := s.unflushed + [i])
    case FlushMessage => s.(toServer := s.toServer[1..], unflushed := [], job := Job(AudioOf(v, s.unflushed)))
  }

  /** The server sends the next piece of audio of an answer, or its final. */
  function SendAnswer(s: State): State
    requires s.job.Job?
  {
    if s.job.rest == [] then s.(job := NoJob, toClient := s.toClient + [FinalMessage])
    else s.(job := Job(s.job.rest[1..]), toClient := s.toClient + [AudioMessage(s.job.rest[0])])
  }

  function Do(v: Voice, s: State, step: Step): State
    requires Enabled(v, s, step)
  {
    match step
    case ChunkArrives => s.(pump := SendingText(false))
    case ChunksEnd => s.(pump := PumpDone)
    case ChunksFail => s.(pump := PumpDone, sendError := true)
    case PumpPuts =>
      if s.pump.SendingText? then
        s.(pump := SendingText(true), textPut := true, toServer := s.toServer + [TextMessage(s.next)])
      else
        s.(pump := SendingFlush(true), flushesPut := s.flushesPut + 1, textPut := false,
           toServer := s.toServer + [FlushMessage])
    case PumpSent =>
      // the flush is counted before it is sent
      if s.pump.SendingText? then s.(pump := SendingFlush(false), chunksFlushed := s.chunksFlushed + 1)
      else s.(pump := AwaitingChunk, next := s.next + 1)
    case PumpSendFails => s.(pump := PumpDone, sendError := true)
    case ServerTakes => TakeMessage(v, s)
    case ServerAnswers => SendAnswer(s)
    case ServerInterjects(m) => s.(toClient := s.toClient + [m])
    case Receive => OnMessage(s.(toClient := s.toClient[1..]), s.toClient[0])
    case ReceiveTimesOut =>
      if SendDone(s) && s.finalsReceived >= s.chunksFlushed then LeaveLoop(s) else s
    case ReceiveFails => s.(loop := RaisedError)
  }

  predicate IsRun(v: Voice, s: State, steps: seq<Step>)
    decreases |steps|
  {
    steps == [] || (Enabled(v, s, steps[0]) && IsRun(v, Do(v, s, steps[0]), steps[1..]))
  }

  function After(v: Voice, s: State, steps: seq<Step>): State
    requires IsRun(v, s, steps)
    decreases |steps|
  {
    if steps == [] then s else After(v, Do(v, s, steps[0]), steps[1..])
  }

  // ---------------------------------------------------------------------------
  // What is conserved: units of answer (a piece of audio, or a final), whether
  // already received, on the wire, or still implied by text on its way up.

  datatype Unit = Sound(audio: nat) | Final

  function Sounds(audio: seq<nat>): seq<Unit> {
    if audio == [] then [] else [Sound(audio[0])] + Sounds(audio[1..])
  }

  function DownUnits(ms: seq<ServerMessage>): seq<Unit> {
    if ms == [] then []
    else (match ms[0] case AudioMessage(a) => [Sound(a)] case FinalMessage => [Final] case _ => []) + DownUnits(ms[1..])
  }

  function UpUnits(v: Voice, ms: seq<ClientMessage>): seq<Unit> {
    if ms == [] then []
    else (match ms[0] case TextMessage(i) => Sounds(v.audio(i)) case FlushMessage => [Final]) + UpUnits(v, ms[1..])
  }

  function JobUnits(j: Job): seq<Unit> {
    if j.NoJob? then [] else Sounds(j.rest) + [Final]
  }

  /** Everything still to come, nearest to the client first. */
  function Pipeline(v: Voice, s: State): seq<Unit> {
    DownUnits(s.toClient) + (JobUnits(s.job) + (Sounds(AudioOf(v, s.unflushed)) + UpUnits(v, s.toServer)))
  }

  /** The whole answer to the first `n` chunks. */
  function Answer(v: Voice, n: nat): seq<Unit> {
    if n == 0 then [] else Answer(v, n - 1) + (Sounds(v.audio(n - 1)) + [Final])
  }

  /** The answer to what has been put: `flushes` texts with their flushes, and perhaps one more text. */
  function Asked(v: Voice, flushes: nat, text: bool): seq<Unit> {
    if text then Answer(v, flushes) + Sounds(v.audio(flushes)) else Answer(v, flushes)
  }

  function AudioIn(us: seq<Unit>): seq<nat> {
    if us == [] then [] else (if us[0].Sound? then [us[0].audio] else []) + AudioIn(us[1..])
  }

  function Finals(us: seq<Unit>): nat {
    if us == [] then 0 else (if us[0].Final? then 1 else 0) + Finals(us[1..])
  }

  // ---------------------------------------------------------------------------
  // The invariant

  predicate PumpOk(v: Voice, s: State) {
    && s.next <= v.chunks
    && (match s.pump
        case AwaitingChunk => s.flushesPut == s.next == s.chunksFlushed && !s.textPut && !s.sendError
        case SendingText(out) => s.next < v.chunks && s.flushesPut == s.next == s.chunksFlushed && s.textPut == out
          && !s.sendError
        case SendingFlush(out) =>
          && s.next < v.chunks && s.chunksFlushed == s.next + 1 && !s.sendError
          && s.flushesPut == (if out then s.next + 1 else s.next) && s.textPut == !out
        case PumpDone =>
          && s.flushesPut <= s.chunksFlushed <= s.flushesPut + 1
          && s.flushesPut <= v.chunks && (s.textPut ==> s.flushesPut < v.chunks)
          && (!s.sendError ==> s.flushesPut == s.chunksFlushed == v.chunks && !s.textPut))
  }

  /** What is pending is a suffix of what was asked for, and what came before it was received. */
  predicate Accounted(asked: seq<Unit>, pending: seq<Unit>, yielded: seq<nat>, finals: nat) {
    && |pending| <= |asked|
    && asked[|asked| - |pending|..] == pending
    && yielded == AudioIn(asked[..|asked| - |pending|])
    && finals == Finals(asked[..|asked| - |pending|])
  }

  predicate WireOk(v: Voice, s: State) {
    Accounted(Asked(v, s.flushesPut, s.textPut), Pipeline(v, s), s.yielded, s.finalsReceived)
  }

  /** Leaving the loop without an error means the pump ended well and every flush was answered. */
  predicate ExitOk(v: Voice, s: State) {
    s.loop.Finished? ==> s.pump.PumpDone? && !s.sendError && s.finalsReceived >= s.chunksFlushed
  }

  predicate Inv(v: Voice, s: State) {
    PumpOk(v, s) && WireOk(v, s) && ExitOk(v, s)
  }

  // ---------------------------------------------------------------------------
  // Sequences of units

  lemma {:induction false} SoundsConcat(a: seq<nat>, b: seq<nat>)
    ensures Sounds(a + b) == Sounds(a) + Sounds(b)
  {
    if a == [] {
      assert a + b == b;
    } else {
      assert (a + b)[1..] == a[1..] + b;
      SoundsConcat(a[1..], b);
    }
  }

  lemma {:induction false} AudioInConcat(a: seq<Unit>, b: seq<Unit>)
    ensures AudioIn(a + b) == AudioIn(a) + AudioIn(b)
    ensures Finals(a + b) == Finals(a) + Finals(b)
  {
    if a == [] {
      assert a + b == b;
    } else {
      assert (a + b)[1..] == a[1..] + b;
      AudioInConcat(a[1..], b);
    }
  }

  lemma {:induction false} SoundsAudio(a: seq<nat>)
    ensures AudioIn(Sounds(a)) == a && Finals(Sounds(a)) == 0
  {
    if a != [] {
      SoundsAudio(a[1..]);
    }
  }

  lemma {:induction false} DownConcat(a: seq<ServerMessage>, b: seq<ServerMessage>)
    ensures DownUnits(a + b) == DownUnits(a) + DownUnits(b)
  {
    if a == [] {
      assert a + b == b;
    } else {
      assert (a + b)[1..] == a[1..] + b;
      DownConcat(a[1..], b);
    }
  }

  lemma {:induction false} UpConcat(v: Voice, a: seq<ClientMessage>, b: seq<ClientMessage>)
    ensures UpUnits(v, a + b) == UpUnits(v, a) + UpUnits(v, b)
  {
    if a == [] {
      assert a + b == b;
    } else {
      assert (a + b)[1..] == a[1..] + b;
      UpConcat(v, a[1..], b);
    }
  }

  lemma {:induction false} AudioOfSnoc(v: Voice, a: seq<nat>, i: nat)
    ensures AudioOf(v, a + [i]) == AudioOf(v, a) + v.audio(i)
  {
    if a == [] {
      assert a + [i] == [i];
    } else {
      assert (a + [i])[1..] == a[1..] + [i];
      AudioOfSnoc(v, a[1..], i);
    }
  }

  lemma {:induction false} AnswerCounts(v: Voice, n: nat)
    ensures Finals(Answer(v, n)) == n
    ensures n > 0 ==> Answer(v, n) != [] && Answer(v, n)[|Answer(v, n)| - 1] == Final
  {
    if n > 0 {
      AnswerCounts(v, n - 1);
      SoundsAudio(v.audio(n - 1));
      AudioInConcat(Sounds(v.audio(n - 1)), [Final]);
      AudioInConcat(Answer(v, n - 1), Sounds(v.audio(n - 1)) + [Final]);
    }
  }

  function Upto(n: nat): seq<nat> { seq(n, i => i) }

  lemma {:induction false} AnswerAudio(v: Voice, n: nat)
    ensures AudioIn(Answer(v, n)) == AudioOf(v, Upto(n))
  {
    if n > 0 {
      AnswerAudio(v, n - 1);
      SoundsAudio(v.audio(n - 1));
      AudioInConcat(Sounds(v.audio(n - 1)), [Final]);
      AudioInConcat(Answer(v, n - 1), Sounds(v.audio(n - 1)) + [Final]);
      assert Upto(n) == Upto(n - 1) + [n - 1];
      AudioOfSnoc(v, Upto(n - 1), n - 1);
    }
  }

  lemma AskedCounts(v: Voice, flushes: nat, text: bool)
    ensures Finals(Asked(v, flushes, text)) == flushes
  {
    AnswerCounts(v, flushes);
    SoundsAudio(v.audio(flushes));
    AudioInConcat(Answer(v, flushes), Sounds(v.audio(flushes)));
  }

  lemma AccountedTotals(asked: seq<Unit>, pending: seq<Unit>, yielded: seq<nat>, finals: nat)
    requires Accounted(asked, pending, yielded, finals)
    ensures yielded + AudioIn(pending) == AudioIn(asked)
    ensures finals + Finals(pending) == Finals(asked)
  {
    var n := |asked| - |pending|;
    assert asked == asked[..n] + asked[n..];
    AudioInConcat(asked[..n], asked[n..]);
  }

  lemma AccountedPut(asked: seq<Unit>, pending: seq<Unit>, more: seq<Unit>, yielded: seq<nat>, finals: nat)
    requires Accounted(asked, pending, yielded, finals)
    ensures Accounted(asked + more, pending + more, yielded, finals)
  {
    var n := |asked| - |pending|;
    assert (asked + more)[..n] == asked[..n];
    assert (asked + more)[n..] == asked[n..] + more;
  }

  lemma AccountedTake(asked: seq<Unit>, got: seq<Unit>, rest: seq<Unit>, yielded: seq<nat>, finals: nat)
    requires Accounted(asked, got + rest, yielded, finals)
    ensures Accounted(asked, rest, yielded + AudioIn(got), finals + Finals(got))
  {
    var n := |asked| - |got + rest|;
    assert asked[n + |got|..] == asked[n..][|got|..];
    assert asked[..n + |got|] == asked[..n] + asked[n..][..|got|];
    AudioInConcat(asked[..n], got);
  }

  /** When every final asked for has been received, and a final was asked for last, nothing is pending. */
  lemma AccountedDone(asked: seq<Unit>, pending: seq<Unit>, yielded: seq<nat>, finals: nat)
    requires Accounted(asked, pending, yielded, finals)
    requires finals >= Finals(asked) && (asked != [] ==> asked[|asked| - 1] == Final)
    ensures pending == [] && yielded == AudioIn(asked)
  {
    AccountedTotals(asked, pending, yielded, finals);
    if pending != [] {
      assert pending[|pending| - 1] == asked[|asked| - 1];
      LastFinal(pending);
    }
    assert asked[..|asked|] == asked;
  }

  lemma {:induction false} LastFinal(us: seq<Unit>)
    requires us != [] && us[|us| - 1] == Final
    ensures Finals(us) > 0
  {
    if |us| > 1 {
      LastFinal(us[1..]);
    }
  }

  // ---------------------------------------------------------------------------
  // Steps keep the invariant

  /** What has not yet reached the client's side of the wire. */
  function Upstream(v: Voice, s: State): seq<Unit> {
    JobUnits(s.job) + (Sounds(AudioOf(v, s.unflushed)) + UpUnits(v, s.toServer))
  }

  lemma TakeConserves(v: Voice, s: State)
    requires s.toServer != [] && s.job.NoJob?
    ensures Upstream(v, TakeMessage(v, s)) == Upstream(v, s)
  {
    var held, rest := Sounds(AudioOf(v, s.unflushed)), UpUnits(v, s.toServer[1..]);
    match s.toServer[0] {
      case TextMessage(i) =>
        AudioOfSnoc(v, s.unflushed, i);
        SoundsConcat(AudioOf(v, s.unflushed), v.audio(i));
        Regroup(held, Sounds(v.audio(i)), rest);
      case FlushMessage =>
        Regroup(held, [Final], rest);
        assert Sounds(AudioOf(v, [])) + rest == rest;
        assert [] + (held + ([Final] + rest)) == held + ([Final] + rest);
    }
  }

  lemma Regroup(a: seq<Unit>, b: seq<Unit>, c: seq<Unit>)
    ensures (a + b) + c == a + (b + c)
  {
  }

  lemma AnswerConserves(v: Voice, s: State)
    requires s.job.Job?
    ensures Pipeline(v, SendAnswer(s)) == Pipeline(v, s)
  {
    var s' := SendAnswer(s);
    var m := if s.job.rest == [] then FinalMessage else AudioMessage(s.job.rest[0]);
    var tail := Sounds(AudioOf(v, s.unflushed)) + UpUnits(v, s.toServer);
    DownConcat(s.toClient, [m]);
    JobAnswers(s.job);
    Regroup(DownUnits(s.toClient), DownUnits([m]), JobUnits(s'.job) + tail);
    Regroup(DownUnits([m]), JobUnits(s'.job), tail);
  }

  lemma JobAnswers(j: Job)
    requires j.Job?
    ensures j.rest == [] ==> JobUnits(j) == DownUnits([FinalMessage]) + JobUnits(NoJob)
    ensures j.rest != [] ==> JobUnits(j) == DownUnits([AudioMessage(j.rest[0])]) + JobUnits(Job(j.rest[1..]))
  {
    if j.rest == [] {
      assert DownUnits([FinalMessage]) == [Final];
    } else {
      assert DownUnits([AudioMessage(j.rest[0])]) == [Sound(j.rest[0])];
      Regroup([Sound(j.rest[0])], Sounds(j.rest[1..]), [Final]);
    }
  }

  /** Putting a message into the socket asks for exactly its answer, at the far end of the pipeline. */
  lemma PutExtends(v: Voice, s: State) returns (more: seq<Unit>)
    requires Enabled(v, s, PumpPuts) && PumpOk(v, s)
    ensures var s' := Do(v, s, PumpPuts);
      Pipeline(v, s') == Pipeline(v, s) + more
        && Asked(v, s'.flushesPut, s'.textPut) == Asked(v, s.flushesPut, s.textPut) + more
  {
    var m := if s.pump.SendingText? then TextMessage(s.next) else FlushMessage;
    more := UpUnits(v, [m]);
    UpConcat(v, s.toServer, [m]);
    var held, up := Sounds(AudioOf(v, s.unflushed)), UpUnits(v, s.toServer);
    Regroup(held, up, more);
    Regroup(JobUnits(s.job), held + up, more);
    Regroup(DownUnits(s.toClient), JobUnits(s.job) + (held + up), more);
    assert more == if s.pump.SendingText? then Sounds(v.audio(s.next)) else [Final];
    if s.pump.SendingFlush? {
      Regroup(Answer(v, s.next), Sounds(v.audio(s.next)), [Final]);
    }
  }

  lemma PutKeepsWire(v: Voice, s: State)
    requires Enabled(v, s, PumpPuts) && PumpOk(v, s) && WireOk(v, s)
    ensures WireOk(v, Do(v, s, PumpPuts))
  {
    var more := PutExtends(v, s);
    hide Pipeline, Asked, Accounted;
    AccountedPut(Asked(v, s.flushesPut, s.textPut), Pipeline(v, s), more, s.yielded, s.finalsReceived);
  }

  lemma MessageCounts(s: State, m: ServerMessage)
    ensures var s' := OnMessage(s, m); var got := DownUnits([m]);
      && s'.yielded == s.yielded + AudioIn(got)
      && s'.finalsReceived == s.finalsReceived + Finals(got)
      && s' == s.(yielded := s'.yielded, finalsReceived := s'.finalsReceived, loop := s'.loop)
  {
    match m {
      case FinalMessage => assert DownUnits([m]) == [Final];
      case AudioMessage(a) => assert DownUnits([m]) == [Sound(a)];
      case _ => assert DownUnits([m]) == [];
    }
  }

  lemma HeadOfPipeline(v: Voice, s: State)
    requires s.toClient != []
    ensures Pipeline(v, s) == DownUnits([s.toClient[0]]) + Pipeline(v, s.(toClient := s.toClient[1..]))
  {
    assert s.toClient == [s.toClient[0]] + s.toClient[1..];
    DownConcat([s.toClient[0]], s.toClient[1..]);
    Regroup(DownUnits([s.toClient[0]]), DownUnits(s.toClient[1..]), Upstream(v, s));
  }

  lemma ReceiveKeepsWire(v: Voice, s: State)
    requires Enabled(v, s, Receive) && WireOk(v, s)
    ensures WireOk(v, Do(v, s, Receive))
  {
    hide Pipeline, Asked, Accounted, DownUnits;
    var taken := s.(toClient := s.toClient[1..]);
    HeadOfPipeline(v, s);
    MessageCounts(taken, s.toClient[0]);
    AccountedTake(Asked(v, s.flushesPut, s.textPut), DownUnits([s.toClient[0]]), Pipeline(v, taken), s.yielded,
      s.finalsReceived);
    assert Pipeline(v, Do(v, s, Receive)) == Pipeline(v, taken) by {
      SameWire(v, taken, Do(v, s, Receive));
    }
  }

  lemma SameWire(v: Voice, s: State, s': State)
    requires s'.toClient == s.toClient && s'.job == s.job && s'.unflushed == s.unflushed && s'.toServer == s.toServer
    ensures Pipeline(v, s') == Pipeline(v, s)
  {
  }

  lemma SamePipeline(v: Voice, s: State, s': State)
    requires WireOk(v, s) && Pipeline(v, s') == Pipeline(v, s)
    requires s'.flushesPut == s.flushesPut && s'.textPut == s.textPut
    requires s'.yielded == s.yielded && s'.finalsReceived == s.finalsReceived
    ensures WireOk(v, s')
  {
    hide Pipeline, Asked, Accounted;
  }

  /** An unrelated message carries no unit. */
  lemma InterjectionConserves(v: Voice, s: State, m: ServerMessage)
    requires !m.AudioMessage? && !m.FinalMessage?
    ensures Pipeline(v, s.(toClient := s.toClient + [m])) == Pipeline(v, s)
  {
    DownConcat(s.toClient, [m]);
    assert [m][1..] == [] && DownUnits([m]) == [];
    hide DownUnits;
    assert DownUnits(s.toClient) + [] == DownUnits(s.toClient);
  }

  lemma TakeKeepsPipeline(v: Voice, s: State)
    requires s.toServer != [] && s.job.NoJob?
    ensures Pipeline(v, TakeMessage(v, s)) == Pipeline(v, s)
  {
    TakeConserves(v, s);
    hide AudioOf, Sounds, UpUnits, DownUnits, JobUnits;
    assert TakeMessage(v, s).toClient == s.toClient;
  }

  lemma StepKeepsWire(v: Voice, s: State, step: Step)
    requires PumpOk(v, s) && WireOk(v, s) && Enabled(v, s, step)
    ensures WireOk(v, Do(v, s, step))
  {
    hide Pipeline, Asked, Accounted;
    match step {
      case PumpPuts => PutKeepsWire(v, s);
      case Receive => ReceiveKeepsWire(v, s);
      case ServerTakes => TakeKeepsPipeline(v, s); SamePipeline(v, s, TakeMessage(v, s));
      case ServerAnswers => AnswerConserves(v, s); SamePipeline(v, s, SendAnswer(s));
      case ServerInterjects(m) => InterjectionConserves(v, s, m); SamePipeline(v, s, s.(toClient := s.toClient + [m]));
      case _ =>
        SameWire(v, s, Do(v, s, step));
        SamePipeline(v, s, Do(v, s, step));
    }
  }

  lemma PumpStepKeepsPump(v: Voice, s: State, step: Step)
    requires PumpOk(v, s) && ExitOk(v, s) && Enabled(v, s, step)
    requires step.ChunkArrives? || step.ChunksEnd? || step.ChunksFail? || step.PumpPuts? || step.PumpSent?
      || step.PumpSendFails?
    ensures PumpOk(v, Do(v, s, step)) && ExitOk(v, Do(v, s, step))
  {
  }

  lemma ReceiveKeepsPump(v: Voice, s: State, m: ServerMessage)
    requires PumpOk(v, s) && ExitOk(v, s) && s.loop.Receiving?
    ensures PumpOk(v, OnMessage(s, m)) && ExitOk(v, OnMessage(s, m))
  {
  }

  lemma StepKeepsInv(v: Voice, s: State, step: Step)
    requires Inv(v, s) && Enabled(v, s, step)
    ensures Inv(v, Do(v, s, step))
  {
    StepKeepsWire(v, s, step);
    StepKeepsPump(v, s, step);
  }

  /** Only the pump's own steps, and messages received, touch what the pump and the exit depend on. */
  lemma SamePump(v: Voice, s: State, s': State)
    requires PumpOk(v, s) && ExitOk(v, s)
    requires s'.pump == s.pump && s'.next == s.next && s'.chunksFlushed == s.chunksFlushed
      && s'.sendError == s.sendError
    requires s'.flushesPut == s.flushesPut && s'.textPut == s.textPut
    requires s'.loop == s.loop && s'.finalsReceived == s.finalsReceived
    ensures PumpOk(v, s') && ExitOk(v, s')
  {
  }

  predicate ServerStep(step: Step) {
    step.ServerTakes? || step.ServerAnswers? || step.ServerInterjects?
  }

  predicate ReceiveStep(step: Step) {
    step.Receive? || step.ReceiveTimesOut? || step.ReceiveFails?
  }

  lemma ServerStepKeepsPump(v: Voice, s: State, step: Step)
    requires PumpOk(v, s) && ExitOk(v, s) && Enabled(v, s, step) && ServerStep(step)
    ensures PumpOk(v, Do(v, s, step)) && ExitOk(v, Do(v, s, step))
  {
    hide PumpOk, ExitOk;
    match step {
      case ServerTakes => SamePump(v, s, TakeMessage(v, s));
      case ServerAnswers => SamePump(v, s, SendAnswer(s));
      case ServerInterjects(m) => SamePump(v, s, s.(toClient := s.toClient + [m]));
    }
  }

  lemma ReceiveStepKeepsPump(v: Voice, s: State, step: Step)
    requires PumpOk(v, s) && ExitOk(v, s) && Enabled(v, s, step) && ReceiveStep(step)
    ensures PumpOk(v, Do(v, s, step)) && ExitOk(v, Do(v, s, step))
  {
    match step {
      case Receive => ReceiveKeepsPump(v, s.(toClient := s.toClient[1..]), s.toClient[0]);
      case ReceiveTimesOut =>
      case ReceiveFails =>
    }
  }

  lemma StepKeepsPump(v: Voice, s: State, step: Step)
    requires PumpOk(v, s) && ExitOk(v, s) && Enabled(v, s, step)
    ensures PumpOk(v, Do(v, s, step)) && ExitOk(v, Do(v, s, step))
  {
    hide PumpOk, ExitOk, Do;
    if ServerStep(step) {
      ServerStepKeepsPump(v, s, step);
    } else if ReceiveStep(step) {
      ReceiveStepKeepsPump(v, s, step);
    } else {
      PumpStepKeepsPump(v, s, step);
    }
  }

  lemma {:induction false} RunKeepsInv(v: Voice, s: State, steps: seq<Step>)
    requires Inv(v, s) && IsRun(v, s, steps)
    ensures Inv(v, After(v, s, steps))
    decreases |steps|
  {
    if steps != [] {
      StepKeepsInv(v, s, steps[0]);
      RunKeepsInv(v, Do(v, s, steps[0]), steps[1..]);
    }
  }

  // ---------------------------------------------------------------------------
  // What holds over every interleaving

  /** A final can only answer a flush already counted, however the pump and the loop interleave. */
  lemma FinalsNeverExceedFlushes(v: Voice, steps: seq<Step>)
    requires IsRun(v, INITIAL_STATE, steps)
    ensures var s := After(v, INITIAL_STATE, steps);
      s.finalsReceived <= s.flushesPut <= s.chunksFlushed
  {
    RunKeepsInv(v, INITIAL_STATE, steps);
    FinalsAnswerFlushes(v, After(v, INITIAL_STATE, steps));
  }

  lemma FinalsAnswerFlushes(v: Voice, s: State)
    requires Inv(v, s)
    ensures s.finalsReceived <= s.flushesPut
  {
    hide Pipeline, Asked, Accounted;
    AskedCounts(v, s.flushesPut, s.textPut);
    AccountedTotals(Asked(v, s.flushesPut, s.textPut), Pipeline(v, s), s.yielded, s.finalsReceived);
  }

  /** Audio comes out in order and is never invented: it is always a prefix of the whole reply's audio. */
  lemma AudioIsAPrefix(v: Voice, steps: seq<Step>)
    requires IsRun(v, INITIAL_STATE, steps)
    ensures After(v, INITIAL_STATE, steps).yielded <= AudioOf(v, Upto(v.chunks))
  {
    var s := After(v, INITIAL_STATE, steps);
    RunKeepsInv(v, INITIAL_STATE, steps);
    YieldedIsAPrefix(v, s);
  }

  lemma YieldedIsAPrefix(v: Voice, s: State)
    requires Inv(v, s)
    ensures s.yielded <= AudioOf(v, Upto(v.chunks))
  {
    hide Pipeline, Asked, Accounted;
    var asked, all := Asked(v, s.flushesPut, s.textPut), Answer(v, v.chunks);
    AccountedTotals(asked, Pipeline(v, s), s.yielded, s.finalsReceived);
    AskedIsAPrefix(v, s.flushesPut, s.textPut, v.chunks);
    AnswerAudio(v, v.chunks);
    assert all == asked + all[|asked|..];
    AudioInConcat(asked, all[|asked|..]);
  }

  lemma {:induction false} AskedIsAPrefix(v: Voice, flushes: nat, text: bool, n: nat)
    requires if text then flushes < n else flushes <= n
    ensures Asked(v, flushes, text) <= Answer(v, n)
    decreases n
  {
    if n == flushes {
    } else if n == flushes + 1 {
      assert Answer(v, n) == Answer(v, n - 1) + Sounds(v.audio(n - 1)) + [Final];
    } else {
      AskedIsAPrefix(v, flushes, text, n - 1);
    }
  }

  /** `synthesize` ends without raising only after yielding all audio of all chunks, in order. */
  lemma FinishedMeansEverything(v: Voice, steps: seq<Step>)
    requires IsRun(v, INITIAL_STATE, steps) && After(v, INITIAL_STATE, steps).loop.Finished?
    ensures var s := After(v, INITIAL_STATE, steps);
      s.yielded == AudioOf(v, Upto(v.chunks)) && s.finalsReceived == s.chunksFlushed == v.chunks
  {
    var s := After(v, INITIAL_STATE, steps);
    RunKeepsInv(v, INITIAL_STATE, steps);
    FinishedYieldsAll(v, s);
  }

  lemma FinishedYieldsAll(v: Voice, s: State)
    requires Inv(v, s) && s.loop.Finished?
    ensures s.yielded == AudioOf(v, Upto(v.chunks)) && s.finalsReceived == s.chunksFlushed == v.chunks
  {
    FinalsAnswerFlushes(v, s);
    AnswerCounts(v, v.chunks);
    AnswerAudio(v, v.chunks);
    assert Asked(v, s.flushesPut, s.textPut) == Answer(v, v.chunks);
    hide Pipeline, Asked, Accounted;
    AccountedDone(Answer(v, v.chunks), Pipeline(v, s), s.yielded, s.finalsReceived);
  }

  lemma PutOnlyByPump(v: Voice, s: State, step: Step)
    requires s.pump.PumpDone? && Enabled(v, s, step)
    ensures Do(v, s, step).flushesPut == s.flushesPut
  {
  }

  lemma LostFlushStays(v: Voice, s: State, step: Step)
    requires s.pump.PumpDone? && s.flushesPut < s.chunksFlushed && s.loop.Receiving? && Enabled(v, s, step)
    requires s.finalsReceived <= s.flushesPut && Do(v, s, step).finalsReceived <= s.flushesPut
    ensures var s' := Do(v, s, step);
      && s'.pump.PumpDone? && s'.flushesPut < s'.chunksFlushed
      && (s'.loop.Receiving? || (s'.loop.RaisedError?
            && (step.ReceiveFails? || (step.Receive? && s.toClient[0].ErrorMessage?))))
  {
    if step.Receive? {
      match s.toClient[0] {
        case FinalMessage =>
        case _ =>
      }
    }
  }

  /** If a counted flush never entered the socket, only an error or a closure can end the loop. */
  lemma LostFlushNeverFinishes(v: Voice, before: seq<Step>, step: Step)
    requires IsRun(v, INITIAL_STATE, before)
    requires var s := After(v, INITIAL_STATE, before);
      s.pump.PumpDone? && s.flushesPut < s.chunksFlushed && s.loop.Receiving? && Enabled(v, s, step)
    ensures var s, s' := After(v, INITIAL_STATE, before), Do(v, After(v, INITIAL_STATE, before), step);
      && s'.pump.PumpDone? && s'.flushesPut < s'.chunksFlushed
      && (s'.loop.Receiving? || (s'.loop.RaisedError?
            && (step.ReceiveFails? || (step.Receive? && s.toClient[0].ErrorMessage?))))
  {
    var s := After(v, INITIAL_STATE, before);
    RunKeepsInv(v, INITIAL_STATE, before);
    StepKeepsInv(v, s, step);
    hide WireOk, PumpOk, Do;
    FinalsAnswerFlushes(v, s);
    FinalsAnswerFlushes(v, Do(v, s, step));
    PutOnlyByPump(v, s, step);
    LostFlushStays(v, s, step);
  }
}
