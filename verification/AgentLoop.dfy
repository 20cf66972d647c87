/**
 The tool loop of one turn (agents/task_agent.py, `run_turn` and
 `_plain_text_messages`). The model, the tools, the self-check, the clock and the
 cancellation token are parameters: their n-th use gives an arbitrary value. So is
 what other turns do to the confirmation gate, which all turns share.
 */
module AgentLoop {
  import opened Options
  import opened Numbers
  import opened ConfirmationGate

  // ---------------------------------------------------------------------------
  // Messages

  datatype ToolCall = ToolCall(id: string, name: string, args: string)

  datatype Role = User | Assistant

  /** The shapes a message dict takes: plain text, an assistant's native calls, one tool's result. */
  datatype Message =
    | Plain(role: Role, content: string)
    | Calls(text: Option<string>, calls: seq<ToolCall>)
    | ToolResult(callId: string, name: string, result: string)

  predicate AllPlain(ms: seq<Message>) {
    forall i | 0 <= i < |ms| :: ms[i].Plain?
  }

  predicate Answers(m: Message, call: ToolCall) {
    m.ToolResult? && m.callId == call.id && m.name == call.name
  }

  /** `ms` holds, from `at` on, one result per call, with its id and name, in order. */
  predicate AnsweredAt(ms: seq<Message>, at: nat, calls: seq<ToolCall>) {
    at + |calls| <= |ms| && forall k | 0 <= k < |calls| :: Answers(ms[at + k], calls[k])
  }

  lemma AnsweredShift(ms: seq<Message>, at: nat, calls: seq<ToolCall>, before: seq<Message>, after: seq<Message>)
    requires AnsweredAt(ms, at, calls)
    ensures AnsweredAt(before + ms + after, |before| + at, calls)
  {
    var all := before + ms + after;
    forall k | 0 <= k < |calls| ensures Answers(all[|before| + at + k], calls[k]) {
      assert all[|before| + at + k] == ms[at + k];
    }
  }

  /** Every native call message is followed by exactly its results; results stand nowhere else. */
  predicate WellPaired(ms: seq<Message>)
    decreases |ms|
  {
    ms == [] ||
    match ms[0]
    case Plain(_, _) => WellPaired(ms[1..])
    case Calls(_, calls) => AnsweredAt(ms, 1, calls) && WellPaired(ms[1 + |calls|..])
    case ToolResult(_, _, _) => false
  }

  /** A message with the results that belong to it. */
  function GroupLength(m: Message): nat {
    if m.Calls? then 1 + |m.calls| else 1
  }

  lemma WellPairedStep(ms: seq<Message>)
    requires ms != []
    ensures WellPaired(ms) <==>
      && !ms[0].ToolResult? && GroupLength(ms[0]) <= |ms|
      && (ms[0].Calls? ==> AnsweredAt(ms, 1, ms[0].calls))
      && WellPaired(ms[GroupLength(ms[0])..])
  {
  }

  lemma {:induction false} WellPairedConcat(a: seq<Message>, b: seq<Message>)
    requires WellPaired(a) && WellPaired(b)
    ensures WellPaired(a + b)
    decreases |a|
  {
    hide WellPaired, AnsweredAt;
    if a == [] {
      assert a + b == b;
    } else {
      WellPairedStep(a);
      WellPairedStep(a + b);
      WellPairedConcat(a[GroupLength(a[0])..], b);
      GroupThenRest(a, b);
    }
  }

  lemma GroupThenRest(a: seq<Message>, b: seq<Message>)
    requires a != [] && GroupLength(a[0]) <= |a|
    ensures (a + b)[0] == a[0] && (a + b)[GroupLength(a[0])..] == a[GroupLength(a[0])..] + b
    ensures a[0].Calls? && AnsweredAt(a, 1, a[0].calls) ==> AnsweredAt(a + b, 1, a[0].calls)
  {
    hide AnsweredAt;
    if a[0].Calls? && AnsweredAt(a, 1, a[0].calls) {
      AnsweredShift(a, 1, a[0].calls, [], b);
      assert [] + a + b == a + b;
    }
  }

  lemma {:induction false} AllPlainIsWellPaired(ms: seq<Message>)
    requires AllPlain(ms)
    ensures WellPaired(ms)
  {
    if ms != [] {
      AllPlainIsWellPaired(ms[1..]);
    }
  }

  /** What WellPaired says of one position. */
  lemma {:induction false} PairedAt(ms: seq<Message>, i: nat)
    requires WellPaired(ms) && i < |ms| && ms[i].Calls?
    ensures AnsweredAt(ms, i + 1, ms[i].calls)
    ensures i + 1 + |ms[i].calls| < |ms| ==> !ms[i + 1 + |ms[i].calls|].ToolResult?
    decreases |ms|
  {
    WellPairedStep(ms);
    var g := GroupLength(ms[0]);
    var rest := ms[g..];
    if i == 0 {
      if rest != [] {
        WellPairedStep(rest);
      }
    } else {
      hide WellPaired;
      assert i < g ==> Answers(ms[1 + (i - 1)], ms[0].calls[i - 1]);
      PairedAt(rest, i - g);
      PairedLater(ms, g, i);
    }
  }

  lemma PairedLater(ms: seq<Message>, g: nat, i: nat)
    requires g <= i < |ms| && ms[i].Calls?
    requires var rest := ms[g..]; var end := i - g + 1 + |ms[i].calls|;
      AnsweredAt(rest, i - g + 1, ms[i].calls) && (end < |rest| ==> !rest[end].ToolResult?)
    ensures AnsweredAt(ms, i + 1, ms[i].calls)
    ensures i + 1 + |ms[i].calls| < |ms| ==> !ms[i + 1 + |ms[i].calls|].ToolResult?
  {
    hide AnsweredAt;
    AnsweredShift(ms[g..], i - g + 1, ms[i].calls, ms[..g], []);
    assert ms[..g] + ms[g..] + [] == ms;
  }

  const USED_A_TOOL := "(used a tool)"

  function PlainOne(m: Message): Message {
    match m
    case Plain(_, _) => m
    case Calls(text, _) => Plain(Assistant, if text.Some? && text.value != "" then text.value else USED_A_TOOL)
    case ToolResult(_, _, result) => Plain(User, result)
  }

  /**
   What the plain form of a message still tells: a tool's result as the user's words, an
   answer with calls as its text.
   */
  predicate Tells(plain: Message, m: Message) {
    match m
    case Plain(_, _) => plain == m
    case Calls(text, _) =>
      plain == Plain(Assistant, if text.Some? && text.value != "" then text.value else "(used a tool)")
    case ToolResult(_, _, result) => plain == Plain(User, result)
  }

  /** _plain_text_messages */
  method PlainTextMessages(messages: seq<Message>) returns (plain: seq<Message>)
    ensures |plain| == |messages| && AllPlain(plain)
    ensures forall i | 0 <= i < |messages| :: plain[i] == PlainOne(messages[i])
    ensures forall i | 0 <= i < |messages| :: Tells(plain[i], messages[i])
  {
    plain := [];
    for i := 0 to |messages|
      invariant |plain| == i && AllPlain(plain)
      invariant forall k | 0 <= k < i :: plain[k] == PlainOne(messages[k])
    {
      plain := plain + [PlainOne(messages[i])];
    }
  }

  // ---------------------------------------------------------------------------
  // One turn

  /** What one generation call gives, raced against the cancellation token. */
  datatype Answer =
    | Cancelled
    | ProviderFailed
    | Answered(text: string, native: seq<ToolCall>)

  /** The checks on a draft: the script rules, then the self-check call. */
  datatype Verdict = CheckCancelled | CheckFailed | Passed | Violation(correction: string)

  datatype Kind = Final | Clarify | ConfirmationRequired | Apology | Stopped

  datatype TurnResult = TurnResult(kind: Kind, draft: string, checkOk: bool, toolCallCount: int,
    pending: Option<(Token, Action)>)

  /** Everything outside the loop's control, and the turn's settings. */
  datatype World = World(
    answer: nat -> Answer,                      // the n-th generation call
    parse: string -> Option<ToolCall>,          // _parse_tool_call
    tool: (nat, ToolCall) -> string,            // the n-th dispatched call: its wrapped result, or error, as text
    cancelledAfter: nat -> bool,                // the check after the n-th answer's tools
    verdict: (nat, string) -> Verdict,          // the n-th check of a draft
    correct: seq<Message> -> Answer,            // the plain completion that corrects a draft
    writeScope: set<string>,
    voice: bool,
    confirmation: Option<Token>,                // the token the turn was resubmitted with
    clock: nat -> real,
    turn: nat,                                  // which turn this is, among all that share the gate
    others: nat -> seq<Op>)                     // what other turns did to the gate before this one's n-th use of it

  /**
   What the turn did: the messages of each generation call and of the correction call,
   and the calls it dispatched.
   */
  datatype Log = Log(generations: seq<seq<Message>>, corrections: seq<seq<Message>>, dispatched: seq<ToolCall>)

  function CallsOf(w: World, answer: Answer): seq<ToolCall>
    requires answer.Answered?
  {
    if answer.native != [] then answer.native
    else if w.parse(answer.text).Some? then [w.parse(answer.text).value]
    else []
  }

  /** All the calls the model asked for in its first n answers. */
  function Asked(w: World, n: nat): seq<ToolCall> {
    if n == 0 then []
    else Asked(w, n - 1) + (if w.answer(n - 1).Answered? then CallsOf(w, w.answer(n - 1)) else [])
  }

  predicate GatedCall(w: World, call: ToolCall) {
    call.name in w.writeScope && w.voice
  }

  function ActionOf(call: ToolCall): Action {
    Action(call.name, call.args)
  }

  /** The messages an answer and its dispatched calls add. */
  function AnswerMessage(answer: Answer): Message
    requires answer.Answered?
  {
    if answer.native != [] then Calls(if answer.text == "" then None else Some(answer.text), answer.native)
    else Plain(Assistant, answer.text)
  }

  function ResultMessage(native: bool, call: ToolCall, text: string): Message {
    if native then ToolResult(call.id, call.name, text) else Plain(User, text)
  }

  function Results(w: World, native: bool, calls: seq<ToolCall>, start: nat): seq<Message> {
    seq(|calls|, k requires 0 <= k < |calls| => ResultMessage(native, calls[k], w.tool(start + k, calls[k])))
  }

  lemma ResultsGrow(w: World, native: bool, calls: seq<ToolCall>, call: ToolCall, start: nat)
    ensures Results(w, native, [], start) == []
    ensures Results(w, native, calls + [call], start)
      == Results(w, native, calls, start) + [ResultMessage(native, call, w.tool(start + |calls|, call))]
  {
  }

  /** The round of the n-th answer: the answer and the result of every call it made. */
  function Round(w: World, n: nat): seq<Message>
    requires w.answer(n).Answered?
  {
    [AnswerMessage(w.answer(n))] + Results(w, w.answer(n).native != [], CallsOf(w, w.answer(n)), |Asked(w, n)|)
  }

  lemma RoundIsPaired(w: World, n: nat)
    requires w.answer(n).Answered?
    ensures WellPaired(Round(w, n))
  {
    var answer, r := w.answer(n), Round(w, n);
    if answer.native != [] {
      NativeRoundIsPaired(r, answer.native);
    } else {
      AllPlainIsWellPaired(r);
    }
  }

  lemma NativeRoundIsPaired(r: seq<Message>, calls: seq<ToolCall>)
    requires |r| == 1 + |calls| && r[0].Calls? && r[0].calls == calls && AnsweredAt(r, 1, calls)
    ensures WellPaired(r)
  {
    assert r[1 + |calls|..] == [];
  }

  /** What the first n answers and their tools add to the conversation. */
  function Rounds(w: World, n: nat): seq<Message> {
    if n == 0 then [] else Rounds(w, n - 1) + if w.answer(n - 1).Answered? then Round(w, n - 1) else []
  }

  lemma {:induction false} RoundsArePaired(w: World, n: nat)
    ensures WellPaired(Rounds(w, n))
  {
    hide WellPaired, Round;
    if n == 0 {
      AllPlainIsWellPaired([]);
    } else {
      RoundsArePaired(w, n - 1);
      if w.answer(n - 1).Answered? {
        RoundIsPaired(w, n - 1);
        WellPairedConcat(Rounds(w, n - 1), Round(w, n - 1));
      } else {
        assert Rounds(w, n - 1) + [] == Rounds(w, n - 1);
      }
    }
  }

  /** The messages of the n-th generation call. */
  function Conversation(w: World, history: seq<Message>, message: string, n: nat): seq<Message> {
    history + [Plain(User, message)] + Rounds(w, n)
  }

  /** At every generation call, every native call message is followed by exactly its results. */
  lemma ConversationIsPaired(w: World, history: seq<Message>, message: string, n: nat)
    requires AllPlain(history)
    ensures WellPaired(Conversation(w, history, message, n))
  {
    RoundsArePaired(w, n);
    AllPlainIsWellPaired(history + [Plain(User, message)]);
    WellPairedConcat(history + [Plain(User, message)], Rounds(w, n));
  }

  // ---------------------------------------------------------------------------
  // Confirmation

  /** Gate call g, of this turn and not before `from`, redeemed the turn's token for this call. */
  predicate RedeemedBy(w: World, ops: seq<Op>, ttl: real, from: nat, g: nat, call: ToolCall) {
    && from <= g < |ops| && Granted(ops, g, ttl) && ops[g].turn == w.turn
    && w.confirmation == Some(ops[g].token) && ops[g].action == ActionOf(call)
  }

  /** Every gated call was let through by a gate call of its own; redeemed[i] is the one of calls[i]. */
  ghost predicate Confirmed(w: World, ops: seq<Op>, ttl: real, from: nat, calls: seq<ToolCall>, redeemed: seq<nat>) {
    && |redeemed| == |calls|
    && (forall i | 0 <= i < |calls| && GatedCall(w, calls[i]) :: RedeemedBy(w, ops, ttl, from, redeemed[i], calls[i]))
    && (forall i, j | 0 <= i < j < |calls| && GatedCall(w, calls[i]) && GatedCall(w, calls[j]) ::
          redeemed[i] < redeemed[j])
  }

  lemma RedeemedLater(w: World, ops: seq<Op>, more: seq<Op>, ttl: real, from: nat, to: nat, g: nat, call: ToolCall)
    requires ops <= more && to <= from && RedeemedBy(w, ops, ttl, from, g, call)
    ensures RedeemedBy(w, more, ttl, to, g, call)
  {
    PendingAfterPrefix(ops, more, g, ttl);
  }

  lemma ConfirmedLater(w: World, ops: seq<Op>, more: seq<Op>, ttl: real, from: nat, calls: seq<ToolCall>,
                       redeemed: seq<nat>)
    requires ops <= more && Confirmed(w, ops, ttl, from, calls, redeemed)
    ensures Confirmed(w, more, ttl, from, calls, redeemed)
  {
    forall i | 0 <= i < |calls| && GatedCall(w, calls[i])
      ensures RedeemedBy(w, more, ttl, from, redeemed[i], calls[i])
    {
      RedeemedLater(w, ops, more, ttl, from, from, redeemed[i], calls[i]);
    }
  }

  lemma NoneConfirmed(w: World, ops: seq<Op>, ttl: real, from: nat)
    ensures Confirmed(w, ops, ttl, from, [], [])
  {
  }

  /** Calls confirmed by earlier gate calls, then calls confirmed by later ones. */
  lemma ConfirmedConcat(w: World, ops: seq<Op>, more: seq<Op>, ttl: real, from: nat,
                        a: seq<ToolCall>, ra: seq<nat>, b: seq<ToolCall>, rb: seq<nat>)
    requires from <= |ops| && ops <= more
    requires Confirmed(w, ops, ttl, from, a, ra) && Confirmed(w, more, ttl, |ops|, b, rb)
    ensures Confirmed(w, more, ttl, from, a + b, ra + rb)
  {
    hide Granted;
    var calls, redeemed := a + b, ra + rb;
    forall i | 0 <= i < |calls| && GatedCall(w, calls[i])
      ensures RedeemedBy(w, more, ttl, from, redeemed[i], calls[i])
    {
      if i < |a| {
        RedeemedLater(w, ops, more, ttl, from, from, ra[i], a[i]);
      } else {
        assert calls[i] == b[i - |a|] && redeemed[i] == rb[i - |a|];
        RedeemedLater(w, more, more, ttl, |ops|, from, rb[i - |a|], b[i - |a|]);
      }
    }
  }

  /** One more call: not gated, or just confirmed. */
  lemma ConfirmedSnoc(w: World, ops: seq<Op>, more: seq<Op>, ttl: real, from: nat,
                      calls: seq<ToolCall>, redeemed: seq<nat>, call: ToolCall, g: nat)
    requires from <= |ops| && ops <= more && Confirmed(w, ops, ttl, from, calls, redeemed)
    requires GatedCall(w, call) ==> RedeemedBy(w, more, ttl, |ops|, g, call)
    ensures Confirmed(w, more, ttl, from, calls + [call], redeemed + [g])
  {
    ConfirmedConcat(w, ops, more, ttl, from, calls, redeemed, [call], [g]);
  }

  ghost function OpsOf(gate: ConfirmationGate?): seq<Op>
    reads gate
  {
    if gate == null then [] else gate.ops
  }

  ghost function TtlOf(gate: ConfirmationGate?): real {
    if gate == null then 0.0 else gate.ttl
  }

  ghost predicate Ready(gate: ConfirmationGate?)
    reads gate
  {
    gate != null ==> gate.Valid()
  }

  /** The turn offered its token for this call, and the gate did not grant it. */
  ghost predicate RefusedIn(w: World, ops: seq<Op>, ttl: real, from: nat, call: ToolCall) {
    exists g | from <= g < |ops| ::
      && ops[g].Consume? && !Granted(ops, g, ttl) && ops[g].turn == w.turn
      && w.confirmation == Some(ops[g].token) && ops[g].action == ActionOf(call)
  }

  /** The gate's last call issued this token for this call, after refusing the turn's own token, if it had one. */
  ghost predicate AskedFor(w: World, ops: seq<Op>, ttl: real, from: nat, call: ToolCall, token: Token) {
    && ops != [] && ops[|ops| - 1].Request? && ops[|ops| - 1].turn == w.turn
    && ops[|ops| - 1].token == token && ops[|ops| - 1].action == ActionOf(call)
    && (w.confirmation.Some? ==> RefusedIn(w, ops, ttl, from, call))
  }

  lemma RefusedLater(w: World, ops: seq<Op>, more: seq<Op>, ttl: real, from: nat, to: nat, call: ToolCall)
    requires ops <= more && to <= from && RefusedIn(w, ops, ttl, from, call)
    ensures RefusedIn(w, more, ttl, to, call)
  {
    var g :| from <= g < |ops| && ops[g].Consume? && !Granted(ops, g, ttl) && ops[g].turn == w.turn
             && w.confirmation == Some(ops[g].token) && ops[g].action == ActionOf(call);
    PendingAfterPrefix(ops, more, g, ttl);
    assert !Granted(more, g, ttl);
  }

  /** Other turns use the gate. */
  method OthersAct(gate: ConfirmationGate?, calls: seq<Op>)
    requires Ready(gate)
    modifies gate
    ensures Ready(gate)
    ensures OpsOf(gate) == old(OpsOf(gate)) + if gate == null then [] else calls
  {
    hide PendingAfter, Granted;
    if gate == null {
      return;
    }
    for i := 0 to |calls|
      invariant gate.Valid() && gate.ops == old(gate.ops) + calls[..i]
    {
      match calls[i] {
        case Request(turn, token, action, evictAt, at) => gate.RequestConfirmation(token, action, evictAt, at, turn);
        case Consume(turn, token, action, at) => var _ := gate.Consume(token, action, at, turn);
      }
      assert calls[..i + 1] == calls[..i] + [calls[i]];
    }
    assert calls[..|calls|] == calls;
  }

  /** Whether a call may run now; a gated one must redeem the turn's token, whatever other turns did to the gate. */
  method MayDispatch(w: World, gate: ConfirmationGate?, call: ToolCall, tick: nat) returns (ok: bool, ghost g: nat)
    requires Ready(gate)
    modifies gate
    ensures Ready(gate) && old(OpsOf(gate)) <= OpsOf(gate)
    ensures !GatedCall(w, call) ==> ok
    ensures GatedCall(w, call) && ok ==> RedeemedBy(w, OpsOf(gate), TtlOf(gate), |old(OpsOf(gate))|, g, call)
    ensures GatedCall(w, call) && ok ==> OpsOf(gate)[g].at == w.clock(tick)
    ensures GatedCall(w, call) && w.confirmation.Some? && gate != null ==>
      && |gate.ops| == |old(OpsOf(gate))| + |w.others(tick)| + 1
      && gate.ops[|gate.ops| - 1] == Consume(w.turn, w.confirmation.value, ActionOf(call), w.clock(tick))
    ensures !ok ==>
      gate == null || w.confirmation.None? || RefusedIn(w, OpsOf(gate), TtlOf(gate), |old(OpsOf(gate))|, call)
  {
    hide PendingAfter, Granted;
    ok, g := true, 0;
    if GatedCall(w, call) {
      ok := w.confirmation.Some? && gate != null;
      if ok {
        OthersAct(gate, w.others(tick));
        ok := gate.Consume(w.confirmation.value, ActionOf(call), w.clock(tick), w.turn);
        g := |gate.ops| - 1;
        assert gate.ops[g].token == w.confirmation.value;
      }
    }
  }

  /** A refused call asks the user, through the gate if there is one. */
  method AskUser(w: World, gate: ConfirmationGate?, call: ToolCall, freshToken: Token, tick: nat) returns (token: Token)
    requires Ready(gate)
    modifies gate
    ensures Ready(gate) && old(OpsOf(gate)) <= OpsOf(gate)
    ensures if gate == null then token == "" else token == freshToken && OpsOf(gate) != []
    ensures gate != null ==>
      OpsOf(gate)[|OpsOf(gate)| - 1] == Request(w.turn, token, ActionOf(call), w.clock(tick), w.clock(tick + 1))
  {
    hide PendingAfter;
    token := "";
    if gate != null {
      token := freshToken;
      OthersAct(gate, w.others(tick));
      gate.RequestConfirmation(token, ActionOf(call), w.clock(tick), w.clock(tick + 1), w.turn);
    }
  }

  // ---------------------------------------------------------------------------
  // The calls of one answer

  /** How the calls of one answer end: all dispatched, or the budget or a missing confirmation stops them. */
  predicate Dispatches(w: World, calls: seq<ToolCall>, dispatched: seq<ToolCall>, count: int, maxToolCalls: int,
                       ended: Option<TurnResult>)
  {
    && dispatched <= calls && count + |dispatched| <= Max(maxToolCalls, count)
    && (ended.None? ==> dispatched == calls)
    && (ended.Some? ==>
          && |dispatched| < |calls| && ended.value.toolCallCount == count + |dispatched|
          && ended.value.kind in {Clarify, ConfirmationRequired}
          && (ended.value.kind == Clarify <==> count + |dispatched| >= maxToolCalls)
          && (ended.value.kind == ConfirmationRequired ==>
                && GatedCall(w, calls[|dispatched|])
                && ended.value.pending.Some? && ended.value.pending.value.1 == ActionOf(calls[|dispatched|])))
  }

  /** The `for call in calls` loop; other turns may use the gate before every use of it here. */
  method DispatchCalls(w: World, gate: ConfirmationGate?, calls: seq<ToolCall>, native: bool, start: nat, count: int,
                       maxToolCalls: int, freshToken: Token, tick: nat)
    returns (results: seq<Message>, dispatched: seq<ToolCall>, ended: Option<TurnResult>, nextTick: nat,
      ghost redeemed: seq<nat>)
    requires Ready(gate)
    modifies gate
    ensures Ready(gate) && old(OpsOf(gate)) <= OpsOf(gate)
    ensures Dispatches(w, calls, dispatched, count, maxToolCalls, ended)
    ensures ended.Some? ==> ended.value.draft == "" && ended.value.checkOk
    ensures results == Results(w, native, dispatched, start)
    ensures Confirmed(w, OpsOf(gate), TtlOf(gate), |old(OpsOf(gate))|, dispatched, redeemed)
    ensures ended.Some? && ended.value.kind == ConfirmationRequired && gate != null ==>
      AskedFor(w, OpsOf(gate), TtlOf(gate), |old(OpsOf(gate))|, calls[|dispatched|], ended.value.pending.value.0)
  {
    hide Confirmed, RedeemedBy, RefusedIn, PendingAfter, Granted;
    NoneConfirmed(w, OpsOf(gate), TtlOf(gate), |OpsOf(gate)|);
    assert Results(w, native, [], start) == [];
    hide Results;
    results, dispatched, ended, nextTick, redeemed := [], [], None, tick, [];
    for i := 0 to |calls|
      invariant dispatched == calls[..i] && count + i <= Max(maxToolCalls, count)
      invariant results == Results(w, native, dispatched, start)
      invariant Ready(gate) && old(OpsOf(gate)) <= OpsOf(gate)
      invariant Confirmed(w, OpsOf(gate), TtlOf(gate), |old(OpsOf(gate))|, dispatched, redeemed)
    {
      var call, toolCallCount := calls[i], count + i;
      if toolCallCount >= maxToolCalls {
        ended := Some(TurnResult(Clarify, "", true, toolCallCount, None));
        return;
      }
      ghost var before := OpsOf(gate);
      var ok; ghost var g;
      ok, g := MayDispatch(w, gate, call, nextTick);
      nextTick := nextTick + 1;
      if !ok {
        ghost var refused := OpsOf(gate);
        var token := AskUser(w, gate, call, freshToken, nextTick);
        nextTick := nextTick + 2;
        ConfirmedLater(w, before, OpsOf(gate), TtlOf(gate), |old(OpsOf(gate))|, dispatched, redeemed);
        if gate != null && w.confirmation.Some? {
          RefusedLater(w, refused, gate.ops, gate.ttl, |before|, |old(OpsOf(gate))|, call);
        }
        ended := Some(TurnResult(ConfirmationRequired, "", true, toolCallCount, Some((token, ActionOf(call)))));
        return;
      }
      ConfirmedSnoc(w, before, OpsOf(gate), TtlOf(gate), |old(OpsOf(gate))|, dispatched, redeemed, call, g);
      redeemed := redeemed + [g];
      ResultsGrow(w, native, dispatched, call, start);
      results := results + [ResultMessage(native, call, w.tool(start + i, call))];
      dispatched := dispatched + [call];
    }
  }

  // ---------------------------------------------------------------------------
  // The turn

  predicate Continues(w: World, n: nat) {
    w.answer(n).Answered? && CallsOf(w, w.answer(n)) != []
  }

  /** What one more answered call adds to what was asked, and to the conversation. */
  lemma AnswerAdds(w: World, history: seq<Message>, message: string, n: nat)
    requires w.answer(n).Answered?
    ensures Asked(w, n + 1) == Asked(w, n) + CallsOf(w, w.answer(n))
    ensures var answer := w.answer(n);
      Conversation(w, history, message, n + 1)
      == Conversation(w, history, message, n) + [AnswerMessage(answer)]
         + Results(w, answer.native != [], CallsOf(w, answer), |Asked(w, n)|)
  {
    var answer, start := w.answer(n), history + [Plain(User, message)];
    assert Rounds(w, n + 1) == Rounds(w, n) + Round(w, n);
    var r := Results(w, answer.native != [], CallsOf(w, answer), |Asked(w, n)|);
    hide Results, Rounds;
    assert start + (Rounds(w, n) + ([AnswerMessage(answer)] + r)) == start + Rounds(w, n) + [AnswerMessage(answer)] + r;
  }

  /** The conversation a correction is asked in: all of it in plain words, the draft, and what is wrong with it. */
  predicate AsksToCorrect(c: seq<Message>, messages: seq<Message>, draft: string, correction: string) {
    && |c| == |messages| + 2 && AllPlain(c)
    && (forall i | 0 <= i < |messages| :: Tells(c[i], messages[i]))
    && c[|messages|] == Plain(Assistant, draft) && c[|messages| + 1] == Plain(User, correction)
  }

  /**
   How a turn ends with this draft, given its correction, if there was one: stopped
   exactly if a check or the correction was cancelled, and otherwise final, with the
   correction's text if it was answered. It counts as checked unless a violation was
   found and the second check did not pass.
   */
  predicate Concludes(w: World, draft: string, result: TurnResult, corrections: seq<seq<Message>>) {
    match w.verdict(0, draft)
    case CheckCancelled => corrections == [] && result.kind == Stopped
    case CheckFailed => corrections == [] && result.kind == Final && result.draft == draft && result.checkOk
    case Passed => corrections == [] && result.kind == Final && result.draft == draft && result.checkOk
    case Violation(_) =>
      |corrections| == 1 &&
      match w.correct(corrections[0])
      case Cancelled => result.kind == Stopped
      case ProviderFailed => result.kind == Final && result.draft == draft && !result.checkOk
      case Answered(text, _) =>
        if w.verdict(1, text).CheckCancelled? then result.kind == Stopped
        else result.kind == Final && result.draft == text && (result.checkOk <==> w.verdict(1, text) == Passed)
  }

  /** The checks on the final draft, with at most one correction. */
  method CheckDraft(w: World, messages: seq<Message>, first: string, count: int)
    returns (result: TurnResult, corrections: seq<seq<Message>>)
    ensures Concludes(w, first, result, corrections)
    ensures result.kind in {Final, Stopped} && result.toolCallCount == count && result.pending == None
    ensures result.kind == Stopped ==> result == TurnResult(Stopped, "", true, count, None)
    ensures |corrections| <= 1 && forall c | c in corrections :: AllPlain(c)
    ensures corrections != [] ==>
      w.verdict(0, first).Violation? && AsksToCorrect(corrections[0], messages, first, w.verdict(0, first).correction)
  {
    var draft, ok := first, true;
    corrections := [];
    var verdict := w.verdict(0, draft);
    if verdict.CheckCancelled? {
      return TurnResult(Stopped, "", true, count, None), corrections;
    }
    if verdict.Violation? {
      ok := false;
      var plain := PlainTextMessages(messages + [Plain(Assistant, draft), Plain(User, verdict.correction)]);
      corrections := [plain];
      var answer := w.correct(plain);
      if answer.Cancelled? {
        return TurnResult(Stopped, "", true, count, None), corrections;
      }
      if answer.Answered? {
        draft := answer.text;
        verdict := w.verdict(1, draft);
        if verdict.CheckCancelled? {
          return TurnResult(Stopped, "", true, count, None), corrections;
        }
        ok := verdict.Passed?;
      }
    }
    return TurnResult(Final, draft, ok, count, None), corrections;
  }

  /** Why the turn ended, given its n generation calls, the calls it dispatched and its correction, if any. */
  predicate Ends(w: World, result: TurnResult, n: nat, dispatched: seq<ToolCall>, corrections: seq<seq<Message>>,
                 maxToolCalls: int)
  {
    && n > 0 && dispatched <= Asked(w, n)
    && (result.kind != Final ==> result.draft == "" && result.checkOk)
    && match w.answer(n - 1)
       case ProviderFailed => result.kind == Apology && dispatched == Asked(w, n) && corrections == []
       case Cancelled => result.kind == Stopped && dispatched == Asked(w, n) && corrections == []
       case Answered(text, _) =>
         if CallsOf(w, w.answer(n - 1)) == [] then
           dispatched == Asked(w, n) && Concludes(w, text, result, corrections)
         else
           corrections == [] && EndsInCalls(w, result, n, dispatched, maxToolCalls)
  }

  /**
   The last answer made calls: the budget or a missing confirmation stopped them, or the
   turn was cancelled after them.
   */
  predicate EndsInCalls(w: World, result: TurnResult, n: nat, dispatched: seq<ToolCall>, maxToolCalls: int)
    requires n > 0
  {
    if dispatched == Asked(w, n) then result.kind == Stopped && w.cancelledAfter(n - 1)
    else
      && |dispatched| < |Asked(w, n)| && result.kind in {Clarify, ConfirmationRequired}
      && (result.kind == Clarify <==> result.toolCallCount >= maxToolCalls)
      && (result.kind == ConfirmationRequired ==>
            var call := Asked(w, n)[|dispatched|];
            && w.voice && call.name in w.writeScope
            && result.pending.Some? && result.pending.value.1 == Action(call.name, call.args))
  }

  /** The generation calls so far: each had the conversation of its turn, and the first n went on to tools, and on. */
  predicate Generated(w: World, history: seq<Message>, message: string, generations: seq<seq<Message>>, n: nat) {
    && (forall i | 0 <= i < |generations| :: generations[i] == Conversation(w, history, message, i))
    && (forall i | 0 <= i < n :: Continues(w, i) && !w.cancelledAfter(i))
  }

  lemma GeneratedMore(w: World, history: seq<Message>, message: string, generations: seq<seq<Message>>)
    requires Generated(w, history, message, generations, |generations|)
    ensures var n := |generations|; var more := generations + [Conversation(w, history, message, n)];
      && Generated(w, history, message, more, n)
      && (Continues(w, n) && !w.cancelledAfter(n) ==> Generated(w, history, message, more, n + 1))
  {
  }

  /** What holds before every generation call. */
  predicate Going(w: World, history: seq<Message>, message: string, init: int, maxToolCalls: int,
                  log: Log, messages: seq<Message>, count: int)
  {
    var n := |log.generations|;
    && messages == Conversation(w, history, message, n)
    && log.corrections == [] && log.dispatched == Asked(w, n) && n <= |log.dispatched|
    && count == init + |log.dispatched| <= Max(maxToolCalls, init)
    && Generated(w, history, message, log.generations, n)
  }

  /** What holds when the turn is over. */
  predicate Over(w: World, history: seq<Message>, message: string, init: int, maxToolCalls: int, result: TurnResult,
                 log: Log) {
    // the budget: generation calls, and tool calls
    && |log.generations| <= Max(0, maxToolCalls - init) + 1
    && result.toolCallCount == init + |log.dispatched| <= Max(maxToolCalls, init)
    // the calls: dispatched in the order the model made them, none skipped, and stopped only for a reason
    && Ends(w, result, |log.generations|, log.dispatched, log.corrections, maxToolCalls)
    // the messages of every generation call
    && Generated(w, history, message, log.generations, |log.generations| - 1)
    && |log.corrections| <= 1 && forall c | c in log.corrections :: AllPlain(c)
  }

  lemma StartsGoing(w: World, history: seq<Message>, message: string, init: int, maxToolCalls: int)
    ensures Going(w, history, message, init, maxToolCalls, Log([], [], []), history + [Plain(User, message)], init)
  {
  }

  lemma AskedForEarlier(w: World, ops: seq<Op>, ttl: real, from: nat, to: nat, call: ToolCall, token: Token)
    requires to <= from && AskedFor(w, ops, ttl, from, call, token)
    ensures AskedFor(w, ops, ttl, to, call, token)
  {
    hide RefusedIn;
    if w.confirmation.Some? {
      RefusedLater(w, ops, ops, ttl, from, to, call);
    }
  }

  /** The turn ends in the middle of the calls of the current answer. */
  lemma OverInCalls(w: World, history: seq<Message>, message: string, init: int, maxToolCalls: int,
                    log: Log, messages: seq<Message>, count: int, dispatched: seq<ToolCall>, result: TurnResult)
    requires Going(w, history, message, init, maxToolCalls, log, messages, count)
    requires Continues(w, |log.generations|)
    requires Dispatches(w, CallsOf(w, w.answer(|log.generations|)), dispatched, count, maxToolCalls, Some(result))
    requires result.draft == "" && result.checkOk
    ensures Over(w, history, message, init, maxToolCalls, result,
              log.(generations := log.generations + [messages], dispatched := log.dispatched + dispatched))
    ensures var n := |log.generations|; var calls := CallsOf(w, w.answer(n)); var at := |log.dispatched| + |dispatched|;
      at < |Asked(w, n + 1)| && Asked(w, n + 1)[at] == calls[|dispatched|]
  {
    hide CallsOf, Conversation, Generated;
    var n := |log.generations|;
    GeneratedMore(w, history, message, log.generations);
    AnswerAdds(w, history, message, n);
    hide Asked;
    var calls := CallsOf(w, w.answer(n));
    assert (Asked(w, n) + calls)[|Asked(w, n)| + |dispatched|] == calls[|dispatched|];
    assert log.dispatched == Asked(w, n);
  }

  /** The turn ends with the current answer. */
  lemma OverAtAnswer(w: World, history: seq<Message>, message: string, init: int, maxToolCalls: int,
                     log: Log, messages: seq<Message>, count: int, result: TurnResult, corrections: seq<seq<Message>>)
    requires Going(w, history, message, init, maxToolCalls, log, messages, count)
    requires match w.answer(|log.generations|)
      case ProviderFailed => result.kind == Apology && corrections == []
      case Cancelled => result.kind == Stopped && corrections == []
      case Answered(text, _) => CallsOf(w, w.answer(|log.generations|)) == [] && Concludes(w, text, result, corrections)
    requires result.kind != Final ==> result.draft == "" && result.checkOk
    requires result.toolCallCount == count && |corrections| <= 1 && forall c | c in corrections :: AllPlain(c)
    ensures Over(w, history, message, init, maxToolCalls, result,
              log.(generations := log.generations + [messages], corrections := corrections))
  {
    hide CallsOf, Conversation, Generated, AllPlain, Concludes;
    var n := |log.generations|;
    GeneratedMore(w, history, message, log.generations);
    assert Asked(w, n) + [] == Asked(w, n);
  }

  /** After all the calls of the current answer, the turn goes on, or is cancelled. */
  lemma GoesOn(w: World, history: seq<Message>, message: string, init: int, maxToolCalls: int,
               log: Log, messages: seq<Message>, count: int)
    requires Going(w, history, message, init, maxToolCalls, log, messages, count)
    requires Continues(w, |log.generations|)
    requires var calls := CallsOf(w, w.answer(|log.generations|));
      Dispatches(w, calls, calls, count, maxToolCalls, None)
    ensures var n := |log.generations|; var answer := w.answer(n); var calls := CallsOf(w, answer);
      var log' := log.(generations := log.generations + [messages], dispatched := log.dispatched + calls);
      && (!w.cancelledAfter(n) ==>
            Going(w, history, message, init, maxToolCalls, log',
              messages + [AnswerMessage(answer)] + Results(w, answer.native != [], calls, |log.dispatched|),
              count + |calls|))
      && (w.cancelledAfter(n) ==>
            Over(w, history, message, init, maxToolCalls, TurnResult(Stopped, "", true, count + |calls|, None), log'))
      && count < maxToolCalls
  {
    hide CallsOf, Conversation, Generated, Results, AllPlain;
    var n := |log.generations|;
    GeneratedMore(w, history, message, log.generations);
    AnswerAdds(w, history, message, n);
  }

  /** The call that the turn stopped at, if it asks for a confirmation. */
  function StoppedAt(w: World, log: Log): (call: ToolCall)
    requires |log.dispatched| < |Asked(w, |log.generations|)|
  {
    Asked(w, |log.generations|)[|log.dispatched|]
  }

  /** run_turn, while other turns may use the gate before every use of it here. */
  method RunTurn(w: World, gate: ConfirmationGate?, history: seq<Message>, message: string, forcedContext: bool,
                 maxToolCalls: int, freshToken: Token)
    returns (result: TurnResult, log: Log, ghost redeemed: seq<nat>)
    requires Ready(gate)
    modifies gate
    ensures Over(w, history, message, if forcedContext then 1 else 0, maxToolCalls, result, log)
    ensures Ready(gate) && old(OpsOf(gate)) <= OpsOf(gate)
    ensures Confirmed(w, OpsOf(gate), TtlOf(gate), |old(OpsOf(gate))|, log.dispatched, redeemed)
    ensures result.kind == ConfirmationRequired && gate != null ==>
      AskedFor(w, OpsOf(gate), TtlOf(gate), |old(OpsOf(gate))|, StoppedAt(w, log), result.pending.value.0)
  {
    hide Confirmed, AskedFor, Conversation, Results, PendingAfter, AllPlain, Generated, CallsOf, Asked, Going, Over,
      Concludes;
    var init := if forcedContext then 1 else 0;
    var messages, toolCallCount, tick := history + [Plain(User, message)], init, 0;
    log, redeemed := Log([], [], []), [];
    NoneConfirmed(w, OpsOf(gate), TtlOf(gate), |OpsOf(gate)|);
    StartsGoing(w, history, message, init, maxToolCalls);
    while true
      invariant Going(w, history, message, init, maxToolCalls, log, messages, toolCallCount) && log.corrections == []
      invariant Ready(gate) && old(OpsOf(gate)) <= OpsOf(gate)
      invariant Confirmed(w, OpsOf(gate), TtlOf(gate), |old(OpsOf(gate))|, log.dispatched, redeemed)
      decreases Max(0, maxToolCalls - toolCallCount)
    {
      ghost var before, start := OpsOf(gate), log;
      log := log.(generations := log.generations + [messages]);
      var answer := w.answer(|log.generations| - 1);
      if !answer.Answered? {
        result := TurnResult(if answer.Cancelled? then Stopped else Apology, "", true, toolCallCount, None);
        OverAtAnswer(w, history, message, init, maxToolCalls, start, messages, toolCallCount, result, []);
        return;
      }
      var calls := CallsOf(w, answer);
      if calls == [] {
        var corrections;
        result, corrections := CheckDraft(w, messages, answer.text, toolCallCount);
        log := log.(corrections := corrections);
        OverAtAnswer(w, history, message, init, maxToolCalls, start, messages, toolCallCount, result, corrections);
        return;
      }
      ghost var asked := messages;
      messages := messages + [AnswerMessage(answer)];
      var results, dispatched, ended, nextTick; ghost var granted;
      results, dispatched, ended, nextTick, granted :=
        DispatchCalls(w, gate, calls, answer.native != [], |log.dispatched|, toolCallCount, maxToolCalls, freshToken,
          tick);
      ConfirmedConcat(w, before, OpsOf(gate), TtlOf(gate), |old(OpsOf(gate))|, log.dispatched, redeemed, dispatched,
        granted);
      tick, redeemed := nextTick, redeemed + granted;
      log := log.(dispatched := log.dispatched + dispatched);
      if ended.Some? {
        OverInCalls(w, history, message, init, maxToolCalls, start, asked, toolCallCount, dispatched, ended.value);
        if ended.value.kind == ConfirmationRequired && gate != null {
          AskedForEarlier(w, gate.ops, gate.ttl, |before|, |old(OpsOf(gate))|, calls[|dispatched|],
            ended.value.pending.value.0);
        }
        return ended.value, log, redeemed;
      }
      GoesOn(w, history, message, init, maxToolCalls, start, asked, toolCallCount);
      messages, toolCallCount := messages + results, toolCallCount + |dispatched|;
      if w.cancelledAfter(|log.generations| - 1) {
        return TurnResult(Stopped, "", true, toolCallCount, None), log, redeemed;
      }
    }
  }

  // ---------------------------------------------------------------------------
  // What a turn guarantees

  /** The calls of an answer: the native ones if there are any, and only else the one written in its text. */
  lemma NativeCallsFirst(w: World, answer: Answer)
    requires answer.Answered?
    ensures answer.native != [] ==> CallsOf(w, answer) == answer.native
    ensures answer.native == [] ==>
      match w.parse(answer.text) case Some(call) => CallsOf(w, answer) == [call] case None => CallsOf(w, answer) == []
  {
  }

  /** The first generation call is told the history and the message. */
  lemma FirstCallIsTold(w: World, history: seq<Message>, message: string)
    ensures Conversation(w, history, message, 0) == history + [Plain(User, message)]
  {
    assert history + [Plain(User, message)] + [] == history + [Plain(User, message)];
  }

  /**
   What the next generation call is told of the n-th answer and of its k-th call: the
   answer itself, then the result that the tool gave for this very call, under its id
   and name if the calls were native, and as the user's words if not.
   */
  lemma NextCallIsTold(w: World, history: seq<Message>, message: string, n: nat, k: nat)
    requires w.answer(n).Answered? && k < |CallsOf(w, w.answer(n))|
    ensures var a := w.answer(n); var call := CallsOf(w, a)[k]; var result := w.tool(|Asked(w, n)| + k, call);
      var before, now := Conversation(w, history, message, n), Conversation(w, history, message, n + 1);
      && before <= now && |before| + 1 + k < |now|
      && now[|before|] == (
           if a.native == [] then Plain(Assistant, a.text)
           else Calls(if a.text == "" then None else Some(a.text), a.native))
      && now[|before| + 1 + k] == (if a.native == []
         then Plain(User, result) else ToolResult(call.id, call.name, result))
  {
    hide Conversation, Asked, CallsOf, Results, AnswerMessage;
    var a := w.answer(n);
    var native, calls, start := a.native != [], CallsOf(w, a), |Asked(w, n)|;
    AnswerAdds(w, history, message, n);
    AnswerIs(a);
    ResultAt(w, native, calls, start, k);
    AfterBefore(Conversation(w, history, message, n), AnswerMessage(a), Results(w, native, calls, start), k);
  }

  lemma AnswerIs(a: Answer)
    requires a.Answered?
    ensures a.native == [] ==> AnswerMessage(a) == Plain(Assistant, a.text)
    ensures a.native != [] ==> AnswerMessage(a) == Calls(if a.text == "" then None else Some(a.text), a.native)
  {
  }

  lemma ResultAt(w: World, native: bool, calls: seq<ToolCall>, start: nat, k: nat)
    requires k < |calls|
    ensures var r := Results(w, native, calls, start); var result := w.tool(start + k, calls[k]);
      |r| == |calls| && r[k] == if native then ToolResult(calls[k].id, calls[k].name, result) else Plain(User, result)
  {
  }

  lemma AfterBefore(before: seq<Message>, m: Message, later: seq<Message>, k: nat)
    requires k < |later|
    ensures var now := before + [m] + later;
      before <= now && now[|before|] == m && |before| + 1 + k < |now| && now[|before| + 1 + k] == later[k]
  {
  }

  /** Every generation call sees each native call message followed by exactly its results. */
  lemma GenerationsArePaired(w: World, history: seq<Message>, message: string, init: int, maxToolCalls: int,
                             result: TurnResult, log: Log, i: nat)
    requires AllPlain(history) && Over(w, history, message, init, maxToolCalls, result, log) && i < |log.generations|
    ensures WellPaired(log.generations[i])
  {
    hide WellPaired, Conversation, AllPlain;
    ConversationIsPaired(w, history, message, i);
  }

  /**
   With fresh tokens, a turn runs at most one gated call, whatever other turns did to
   the gate meanwhile: a second one would redeem the same token again.
   */
  lemma OneGatedCall(w: World, ops: seq<Op>, ttl: real, from: nat, calls: seq<ToolCall>, redeemed: seq<nat>, i: nat,
                     j: nat)
    requires FreshTokens(ops) && Confirmed(w, ops, ttl, from, calls, redeemed)
    requires i < |calls| && j < |calls| && GatedCall(w, calls[i]) && GatedCall(w, calls[j])
    ensures i == j
  {
    hide PendingAfter, FreshTokens, Granted;
    if i < j {
      RedeemedOnce(ops, redeemed[i], redeemed[j], ttl);
    } else if j < i {
      RedeemedOnce(ops, redeemed[j], redeemed[i], ttl);
    }
  }

  /**
   A write-scope call that a voice turn ran is its only one, and was redeemed with a
   token issued before for the same tool and arguments, before that token expired.
   */
  lemma VoiceWriteWasConfirmed(w: World, ops: seq<Op>, ttl: real, from: nat, calls: seq<ToolCall>, redeemed: seq<nat>,
                               i: nat)
    returns (k: nat)
    requires w.voice && FreshTokens(ops) && Confirmed(w, ops, ttl, from, calls, redeemed)
    requires i < |calls| && calls[i].name in w.writeScope
    ensures forall j | 0 <= j < |calls| && j != i :: calls[j].name !in w.writeScope
    ensures RedeemedBy(w, ops, ttl, from, redeemed[i], calls[i])
    ensures k < redeemed[i] && IssuedBy(ops, k, w.confirmation.value, ActionOf(calls[i]))
      && ops[redeemed[i]].at < ops[k].at + ttl
  {
    hide PendingAfter, FreshTokens, Granted;
    assert GatedCall(w, calls[i]);
    k := RedeemsIssue(ops, redeemed[i], ttl);
    forall j | 0 <= j < |calls| && j != i ensures calls[j].name !in w.writeScope {
      if calls[j].name in w.writeScope {
        assert GatedCall(w, calls[j]);
        OneGatedCall(w, ops, ttl, from, calls, redeemed, i, j);
      }
    }
  }

  /** What one turn did on the gate: `seen` are the gate's calls up to its end, from `from` on while it ran. */
  datatype Ran = Ran(world: World, seen: seq<Op>, from: nat, calls: seq<ToolCall>, redeemed: seq<nat>)

  /** Turns on one gate, whose calls in the end are `ops`; every turn ended as RunTurn says. */
  ghost predicate RanOn(turns: seq<Ran>, ops: seq<Op>, ttl: real) {
    && (forall a | 0 <= a < |turns| ::
          && turns[a].seen <= ops
          && Confirmed(turns[a].world, turns[a].seen, ttl, turns[a].from, turns[a].calls, turns[a].redeemed))
    && (forall a, b | 0 <= a < b < |turns| :: turns[a].world.turn != turns[b].world.turn)
  }

  /** The i-th call of turn a was a write-scope call of a voice turn, and ran. */
  predicate WriteRan(turns: seq<Ran>, a: nat, i: nat) {
    a < |turns| && i < |turns[a].calls| && GatedCall(turns[a].world, turns[a].calls[i])
  }

  /**
   Gate call g let the i-th call of turn a through, with a token that call k had issued
   for it and that had not expired.
   */
  predicate LetThrough(turns: seq<Ran>, ops: seq<Op>, ttl: real, a: nat, i: nat, g: nat, k: nat)
    requires WriteRan(turns, a, i)
  {
    var call := turns[a].calls[i];
    && k < g < |ops| && Granted(ops, g, ttl) && ops[g].turn == turns[a].world.turn && ops[g].action == ActionOf(call)
    && IssuedBy(ops, k, ops[g].token, ActionOf(call)) && ops[g].at < ops[k].at + ttl
  }

  lemma WriteWasLetThrough(turns: seq<Ran>, ops: seq<Op>, ttl: real, a: nat, i: nat) returns (g: nat, k: nat)
    requires FreshTokens(ops) && RanOn(turns, ops, ttl) && WriteRan(turns, a, i)
    ensures LetThrough(turns, ops, ttl, a, i, g, k)
    ensures Confirmed(turns[a].world, ops, ttl, turns[a].from, turns[a].calls, turns[a].redeemed)
      && g == turns[a].redeemed[i]
  {
    hide PendingAfter, FreshTokens, Granted;
    var t := turns[a];
    ConfirmedLater(t.world, t.seen, ops, ttl, t.from, t.calls, t.redeemed);
    g := t.redeemed[i];
    k := RedeemsIssue(ops, g, ttl);
  }

  /**
   Over any number of turns that share the gate and interleave on it as they like:
   two write-scope calls that ran were in different turns, let through by different
   grants, of different tokens, from different issues.
   */
  lemma WritesInjectIntoIssues(turns: seq<Ran>, ops: seq<Op>, ttl: real, a: nat, i: nat, b: nat, j: nat)
    returns (g: nat, k: nat, h: nat, l: nat)
    requires FreshTokens(ops) && RanOn(turns, ops, ttl)
    requires WriteRan(turns, a, i) && WriteRan(turns, b, j) && (a, i) != (b, j)
    ensures LetThrough(turns, ops, ttl, a, i, g, k) && LetThrough(turns, ops, ttl, b, j, h, l)
    ensures a != b && g != h && ops[g].token != ops[h].token && k != l
  {
    g, k := WriteWasLetThrough(turns, ops, ttl, a, i);
    h, l := WriteWasLetThrough(turns, ops, ttl, b, j);
    hide PendingAfter, FreshTokens, Granted, Confirmed;
    if a == b {
      var t := turns[a];
      OneGatedCall(t.world, ops, ttl, t.from, t.calls, t.redeemed, i, j);
    } else {
      assert turns[a].world.turn != turns[b].world.turn;
      if g < h {
        RedeemedOnce(ops, g, h, ttl);
      } else {
        RedeemedOnce(ops, h, g, ttl);
      }
    }
  }
}
