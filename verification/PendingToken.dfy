/**
 Which confirmation token a spoken turn sends (speech_gateway/main.py): a turn's reply
 may carry the token of an action that waits for the user's confirmation, and one
 variable of the session hands it to the next think task. Here that variable is followed
 along the runs of module Converse, barge-ins included.
 */
module PendingToken {
  import opened Options
  import opened Duplex
  import opened Converse

  type Token = string

  /**
   The variable `pending_confirmation_token`, and what it was set to by each turn that
   came to set it. The replies of the backend are a parameter.
   */
  datatype Track = Track(token: Option<Token>, answered: map<nat, Option<Token>>)

  const UNTRACKED := Track(None, map[])

  /** The think task ended in a reply, or in the error for which the apology stands in. */
  predicate HasReply(t: Turn) {
    t.think.Done? && (t.think.outcome.Returned? || t.think.outcome.BackendError?)
  }

  /** The token of that reply; the apology carries none. */
  function ReplyToken(replies: nat -> Option<Token>, u: nat, t: Turn): Option<Token> {
    if t.think == Done(Returned) then replies(u) else None
  }

  /** The step sets the variable: right after a reply, or once the error that replaces it is sent. */
  predicate Answers(w: World, step: Step)
    requires Enabled(w, step)
  {
    match step
    case TurnResume(u) =>
      w.turns[u].pc.AwaitingThink? && !w.turns[u].cancelling && w.turns[u].think == Done(Returned)
    case TurnSent(u) => w.turns[u].pc.SendingError?
    case _ => false
  }

  function Observe(w: World, step: Step, tr: Track, replies: nat -> Option<Token>): Track
    requires Enabled(w, step)
  {
    if Answers(w, step) then
      var token := ReplyToken(replies, step.turn, w.turns[step.turn]);
      Track(token, tr.answered[step.turn := token])
    else tr
  }

  function TrackAfter(w: World, steps: seq<Step>, tr: Track, replies: nat -> Option<Token>): Track
    requires IsRun(w, steps)
    decreases |steps|
  {
    if steps == [] then tr else TrackAfter(Do(w, steps[0]), steps[1..], Observe(w, steps[0], tr, replies), replies)
  }

  /** What the last of the turns before n that was answered left; none at first. */
  function TokenBefore(answered: map<nat, Option<Token>>, n: nat): Option<Token> {
    if n == 0 then None else if n - 1 in answered then answered[n - 1] else TokenBefore(answered, n - 1)
  }

  predicate PastThink(pc: TurnPc) {
    pc.SendingText? || pc.AwaitingSpeak? || pc.SendingComplete?
  }

  /**
   An answered turn keeps its reply; every turn that got to its text was answered, and
   one that sends an error had none.
   */
  predicate TurnTracked(t: Turn, u: nat, tr: Track, replies: nat -> Option<Token>) {
    && (u in tr.answered ==> HasReply(t) && (PastThink(t.pc) || t.pc.Ended?))
    && (u in tr.answered ==> tr.answered[u] == ReplyToken(replies, u, t))
    && (PastThink(t.pc) ==> u in tr.answered)
    && (t.pc.SendingError? ==> t.think == Done(BackendError))
  }

  ghost predicate Tracks(w: World, tr: Track, replies: nat -> Option<Token>) {
    && (forall u | u in tr.answered :: u < |w.turns|)
    && (forall u | 0 <= u < |w.turns| :: TurnTracked(w.turns[u], u, tr, replies))
    && (forall i | 0 <= i < |w.log| && Stage(w.log[i]) >= 1 :: w.log[i].turn in tr.answered)
    && tr.token == TokenBefore(tr.answered, |w.turns|)
  }

  // ---------------------------------------------------------------------------
  // Every step keeps track

  lemma {:induction false} TokenBeforeSame(a: map<nat, Option<Token>>, b: map<nat, Option<Token>>, n: nat)
    requires forall u | 0 <= u < n :: (u in a <==> u in b) && (u in a ==> a[u] == b[u])
    ensures TokenBefore(a, n) == TokenBefore(b, n)
  {
    if n > 0 {
      TokenBeforeSame(a, b, n - 1);
    }
  }

  /** One turn moves on, in the order of its life, without a new answer. */
  predicate MovesOn(t: Turn, t': Turn) {
    && (t.think.Done? ==> t'.think == t.think)
    && (PastThink(t'.pc) ==> PastThink(t.pc))
    && (PastThink(t.pc) ==> PastThink(t'.pc) || t'.pc.Ended?)
    && (t.pc.Ended? ==> t'.pc.Ended?)
    && (t'.pc.SendingError? && !t.pc.SendingError? ==> t'.think == Done(BackendError))
  }

  lemma MovesOnTracked(t: Turn, t': Turn, u: nat, tr: Track, replies: nat -> Option<Token>)
    requires TurnTracked(t, u, tr, replies) && MovesOn(t, t')
    ensures TurnTracked(t', u, tr, replies)
  {
  }

  /** A step that answers no turn: every turn moves on, and a message comes from a turn past its think task. */
  predicate Quiet(w: World, w': World) {
    && |w.turns| <= |w'.turns| <= |w.turns| + 1
    && (forall u | 0 <= u < |w.turns| :: MovesOn(w.turns[u], w'.turns[u]))
    && (|w'.turns| > |w.turns| ==> w'.turns[|w.turns|].pc.NotStarted?)
    && (w'.log == w.log || (|w'.log| == |w.log| + 1 && w'.log[..|w.log|] == w.log
          && ComesFromReply(w, w'.log[|w.log|])))
  }

  predicate ComesFromReply(w: World, m: Message) {
    Stage(m) >= 1 ==> m.turn < |w.turns| && PastThink(w.turns[m.turn].pc)
  }

  lemma QuietKeepsTrack(w: World, w': World, tr: Track, replies: nat -> Option<Token>)
    requires Tracks(w, tr, replies) && Quiet(w, w')
    ensures Tracks(w', tr, replies)
  {
    forall u | 0 <= u < |w'.turns| ensures TurnTracked(w'.turns[u], u, tr, replies) {
      if u < |w.turns| {
        MovesOnTracked(w.turns[u], w'.turns[u], u, tr, replies);
      }
    }
    forall i | 0 <= i < |w'.log| && Stage(w'.log[i]) >= 1 ensures w'.log[i].turn in tr.answered {
      if i < |w.log| {
        assert w'.log[i] == w'.log[..|w.log|][i] == w.log[i];
      } else {
        assert TurnTracked(w.turns[w'.log[i].turn], w'.log[i].turn, tr, replies);
      }
    }
  }

  lemma SaysQuietly(w: World, v: World, m: Message)
    requires Quiet(w, v) && v.log == w.log && ComesFromReply(w, m)
    ensures Quiet(w, Say(v, m))
  {
    assert (w.log + [m])[..|w.log|] == w.log;
  }

  lemma OneTurnQuiet(w: World, w': World, t: nat)
    requires t < |w.turns| == |w'.turns| && w'.log == w.log && w'.turns == w.turns[t := w'.turns[t]]
    requires MovesOn(w.turns[t], w'.turns[t])
    ensures Quiet(w, w')
  {
  }

  lemma LoopIsQuiet(w: World, step: Step)
    requires Enabled(w, step)
    requires step.Get? || step.LoopEmit? || step.LoopSent? || step.LoopSendRaises? || step.LoopResume?
    ensures Quiet(w, Do(w, step))
  {
    if step.LoopEmit? {
      SaysQuietly(w, w.(loop := Do(w, step).loop), Do(w, step).log[|w.log|]);
    }
  }

  lemma TurnIsQuiet(w: World, step: Step)
    requires Inv(w) && Enabled(w, step) && !Answers(w, step)
    requires step.TurnStart? || step.TurnSent? || step.TurnSendRaises? || step.TurnResume? || step.TurnCancelled?
             || step.ThinkEnds? || step.SpeakEnds?
    ensures Quiet(w, Do(w, step))
  {
    hide LogOk, RefsOk, LoopOk, Quiet;
    assert TurnConsistent(w.turns[step.turn]);
    OneTurnQuiet(w, Do(w, step), step.turn);
  }

  lemma SpeakingIsQuiet(w: World, step: Step)
    requires Inv(w) && Enabled(w, step) && (step.TurnEmit? || step.SpeakEmits?)
    ensures Quiet(w, Do(w, step))
  {
    hide LogOk, RefsOk, LoopOk, Quiet;
    var t := step.turn;
    assert TurnConsistent(w.turns[t]);
    var m := Do(w, step).log[|w.log|];
    if step.TurnEmit? {
      var v := Goto(w, t, Do(w, step).turns[t].pc);
      OneTurnQuiet(w, v, t);
      SaysQuietly(w, v, m);
    } else {
      assert w.turns == w.turns[t := w.turns[t]];
      OneTurnQuiet(w, w, t);
      SaysQuietly(w, w, m);
    }
  }

  /** The turn that is answered is the newest, so what it sets is the latest. */
  lemma AnswerKeepsTrack(w: World, step: Step, tr: Track, replies: nat -> Option<Token>)
    requires Inv(w) && Enabled(w, step) && Answers(w, step) && Tracks(w, tr, replies)
    ensures Tracks(Do(w, step), Observe(w, step, tr, replies), replies)
  {
    hide LogOk, LoopOk;
    var t := step.turn;
    assert Unfinished(w.turns[t]) && t == |w.turns| - 1;
    var w', tr' := Do(w, step), Observe(w, step, tr, replies);
    forall u | 0 <= u < |w'.turns| ensures TurnTracked(w'.turns[u], u, tr', replies) {
      assert TurnTracked(w.turns[u], u, tr, replies);
    }
  }

  lemma StepKeepsTrack(w: World, step: Step, tr: Track, replies: nat -> Option<Token>)
    requires Inv(w) && Enabled(w, step) && Tracks(w, tr, replies)
    ensures Tracks(Do(w, step), Observe(w, step, tr, replies), replies)
  {
    hide Inv, Tracks, Do, Quiet;
    if Answers(w, step) {
      AnswerKeepsTrack(w, step, tr, replies);
    } else {
      match step {
        case Get(_) => LoopIsQuiet(w, step);
        case LoopEmit => LoopIsQuiet(w, step);
        case LoopSent => LoopIsQuiet(w, step);
        case LoopSendRaises => LoopIsQuiet(w, step);
        case LoopResume => LoopIsQuiet(w, step);
        case TurnEmit(_) => SpeakingIsQuiet(w, step);
        case SpeakEmits(_, _) => SpeakingIsQuiet(w, step);
        case _ => TurnIsQuiet(w, step);
      }
      QuietKeepsTrack(w, Do(w, step), tr, replies);
    }
  }

  lemma {:induction false} RunKeepsTrack(w: World, steps: seq<Step>, tr: Track, replies: nat -> Option<Token>)
    requires Inv(w) && IsRun(w, steps) && Tracks(w, tr, replies)
    ensures Inv(After(w, steps)) && Tracks(After(w, steps), TrackAfter(w, steps, tr, replies), replies)
    decreases |steps|
  {
    hide Inv, Tracks, Do, Enabled, Observe;
    if steps != [] {
      StepKeepsInv(w, steps[0]);
      StepKeepsTrack(w, steps[0], tr, replies);
      RunKeepsTrack(Do(w, steps[0]), steps[1..], Observe(w, steps[0], tr, replies), replies);
    }
  }

  // ---------------------------------------------------------------------------
  // What a think task sends

  lemma NothingTracked(replies: nat -> Option<Token>)
    ensures Inv(INITIAL_WORLD) && Tracks(INITIAL_WORLD, UNTRACKED, replies)
  {
  }

  /**
   As long as a turn thinks, the token it sends is that of the latest turn before it
   that was answered, and none if no turn was. A reply counts even
   if its turn was interrupted before it spoke or showed a word. A turn that was
   interrupted while it thought does not count, nor one that failed and whose error
   message was never sent.
   */
  lemma ThinkSendsLatestAnswer(steps: seq<Step>, replies: nat -> Option<Token>, t: nat)
    requires IsRun(INITIAL_WORLD, steps) && t < |After(INITIAL_WORLD, steps).turns|
    requires After(INITIAL_WORLD, steps).turns[t].think.Running?
    ensures var tr := TrackAfter(INITIAL_WORLD, steps, UNTRACKED, replies); tr.token == TokenBefore(tr.answered, t)
  {
    NothingTracked(replies);
    hide INITIAL_WORLD, UNTRACKED, After, TrackAfter, IsRun;
    RunKeepsTrack(INITIAL_WORLD, steps, UNTRACKED, replies);
    ThinkerIsNewest(After(INITIAL_WORLD, steps), TrackAfter(INITIAL_WORLD, steps, UNTRACKED, replies), replies, t);
  }

  lemma ThinkerIsNewest(w: World, tr: Track, replies: nat -> Option<Token>, t: nat)
    requires Inv(w) && Tracks(w, tr, replies) && t < |w.turns| && w.turns[t].think.Running?
    ensures t == |w.turns| - 1 && t !in tr.answered && tr.token == TokenBefore(tr.answered, t)
  {
    hide LogOk, LoopOk;
    assert TurnConsistent(w.turns[t]) && Unfinished(w.turns[t]) && TurnTracked(w.turns[t], t, tr, replies);
  }

  /** What counts as answered: only a turn that had a reply, and every turn that has shown its text. */
  lemma AnsweredMeans(steps: seq<Step>, replies: nat -> Option<Token>, u: nat)
    requires IsRun(INITIAL_WORLD, steps)
    ensures var w := After(INITIAL_WORLD, steps); var tr := TrackAfter(INITIAL_WORLD, steps, UNTRACKED, replies);
      && (u in tr.answered ==>
            && u < |w.turns| && w.turns[u].think in {Done(Returned), Done(BackendError)}
            && tr.answered[u] == if w.turns[u].think == Done(Returned) then replies(u) else None)
      && (AssistantText(u) in w.log ==> u in tr.answered)
  {
    NothingTracked(replies);
    hide INITIAL_WORLD, UNTRACKED, After, TrackAfter, IsRun, Inv;
    RunKeepsTrack(INITIAL_WORLD, steps, UNTRACKED, replies);
    var tr := TrackAfter(INITIAL_WORLD, steps, UNTRACKED, replies);
    if u in tr.answered {
      assert TurnTracked(After(INITIAL_WORLD, steps).turns[u], u, tr, replies);
    }
  }

  /**
   After an interruption: if the turn before had shown its text, its own reply decides;
   if its think task never gave a reply, the same token is sent again.
   */
  lemma NextThinkSends(steps: seq<Step>, replies: nat -> Option<Token>, t: nat)
    requires IsRun(INITIAL_WORLD, steps) && 0 < t < |After(INITIAL_WORLD, steps).turns|
    requires After(INITIAL_WORLD, steps).turns[t].think.Running?
    ensures var w := After(INITIAL_WORLD, steps); var tr := TrackAfter(INITIAL_WORLD, steps, UNTRACKED, replies);
      && (AssistantText(t - 1) in w.log ==>
            tr.token == if w.turns[t - 1].think == Done(Returned) then replies(t - 1) else None)
      && (w.turns[t - 1].think !in {Done(Returned), Done(BackendError)} ==> tr.token == TokenBefore(tr.answered, t - 1))
  {
    ThinkSendsLatestAnswer(steps, replies, t);
    AnsweredMeans(steps, replies, t - 1);
    hide INITIAL_WORLD, UNTRACKED, After, TrackAfter, IsRun;
  }
}
