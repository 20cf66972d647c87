/**
 The streamed reply (agents/task_agent.py, `_sniff_and_forward` and the loop of
 `stream_turn`): the first characters are held until they show no tool call, the
 rest goes through chunk_stream, and every chunk through the streaming sanitizer.
 */
module ReplyStream {
  import opened Text
  import opened MarkerDeletion
  import opened OutputValidation
  import opened ChunkStream
  import opened ChunkTheorems

  const TOOL_CALL_SNIFF_CHARS := 200
  const TOOL_CALL_PREFIX := Lift("TOOL_CALL:")
  const COLON := Mark(58)

  /** _looks_like_tool_call_attempt */
  predicate LooksLikeToolCall(s: Text, names: set<Text>) {
    Occurs(TOOL_CALL_PREFIX, s) || exists name | name in names :: Occurs(name + [COLON], s)
  }

  // ---------------------------------------------------------------------------
  // Sniffing

  /** What is forwarded, unless a tool call shows before anything is. */
  datatype Sniffed = ToolCall | Forward(parts: seq<Text>)

  /** The deltas it takes to see enough characters, or all of them. */
  function WindowEnd(deltas: seq<Text>, i: nat): (k: nat)
    requires i <= |deltas|
    ensures i <= k <= |deltas|
    ensures k < |deltas| ==> |Concat(deltas[..k])| >= TOOL_CALL_SNIFF_CHARS
    decreases |deltas| - i
  {
    if i == |deltas| || |Concat(deltas[..i])| >= TOOL_CALL_SNIFF_CHARS then i else WindowEnd(deltas, i + 1)
  }

  /** A stream that fails before the window is full forwards nothing. */
  function Sniff(deltas: seq<Text>, fails: bool, names: set<Text>): Sniffed {
    var k := WindowEnd(deltas, 0);
    var window := Concat(deltas[..k]);
    if |window| < TOOL_CALL_SNIFF_CHARS && fails then Forward([])
    else if LooksLikeToolCall(window, names) then ToolCall
    else Forward((if window == [] then [] else [window]) + deltas[k..])
  }

  /** _sniff_and_forward */
  method SniffAndForward(deltas: seq<Text>, fails: bool, names: set<Text>) returns (r: Sniffed)
    ensures r == Sniff(deltas, fails, names)
  {
    hide LooksLikeToolCall;
    var buffered: Text, sniffed, parts: seq<Text> := [], false, [];
    ghost var k := WindowEnd(deltas, 0);
    for i := 0 to |deltas|
      invariant !sniffed ==> parts == [] && buffered == Concat(deltas[..i]) && k == WindowEnd(deltas, i)
      invariant !sniffed ==> |buffered| < TOOL_CALL_SNIFF_CHARS
      invariant sniffed ==> k <= i && |Concat(deltas[..k])| >= TOOL_CALL_SNIFF_CHARS
      invariant sniffed ==> !LooksLikeToolCall(Concat(deltas[..k]), names)
      invariant sniffed ==> parts == [Concat(deltas[..k])] + deltas[k..i]
    {
      assert deltas[..i + 1] == deltas[..i] + [deltas[i]];
      if sniffed {
        assert deltas[k..i + 1] == deltas[k..i] + [deltas[i]];
        parts := parts + [deltas[i]];
        continue;
      }
      ConcatConcat(deltas[..i], [deltas[i]]);
      ConcatOne(deltas[i]);
      buffered := buffered + deltas[i];
      if |buffered| >= TOOL_CALL_SNIFF_CHARS {
        sniffed := true;
        if LooksLikeToolCall(buffered, names) {
          return ToolCall;
        }
        assert deltas[i + 1..i + 1] == [];
        parts := parts + [buffered];
      }
    }
    assert deltas[..|deltas|] == deltas;
    if sniffed {
      assert deltas[k..|deltas|] == deltas[k..];
    } else if !fails {
      assert deltas[|deltas|..] == [];
      if LooksLikeToolCall(buffered, names) {
        return ToolCall;
      }
      if buffered != [] {
        parts := [buffered];
      }
    }
    return Forward(parts);
  }

  /** An attempt at a tool call: the prefix, or a tool's name and a colon. */
  ghost predicate IsAttempt(s: Text, names: set<Text>) {
    Occurs(Lift("TOOL_CALL:"), s) || exists name | name in names :: Occurs(name + [Mark(58)], s)
  }

  /**
   The first k deltas are held, until they come to 200 characters or are all. Then the
   reply falls back exactly if what is held is an attempt; it is forwarded as one
   piece, and every later delta as it comes. A stream that fails while it is held
   gives nothing, attempt or not.
   */
  lemma SniffExactly(deltas: seq<Text>, fails: bool, names: set<Text>) returns (k: nat)
    ensures k <= |deltas| && forall j | 0 <= j < k :: |Concat(deltas[..j])| < 200
    ensures k < |deltas| ==> |Concat(deltas[..k])| >= 200
    ensures var held := Concat(deltas[..k]); var r := Sniff(deltas, fails, names);
      if fails && |held| < 200 then r == Forward([])
      else
        && (r.ToolCall? <==> IsAttempt(held, names))
        && (r.Forward? ==> r.parts == (if held == [] then [] else [held]) + deltas[k..])
  {
    hide Occurs;
    k := WindowEnd(deltas, 0);
    ShortBefore(deltas, 0);
  }

  lemma {:induction false} ShortBefore(deltas: seq<Text>, i: nat)
    requires i <= |deltas|
    ensures forall j | i <= j < WindowEnd(deltas, i) :: |Concat(deltas[..j])| < 200
    decreases |deltas| - i
  {
    if i < |deltas| && |Concat(deltas[..i])| < 200 {
      ShortBefore(deltas, i + 1);
    }
  }

  lemma LooksLikeWithin(s: Text, rest: Text, names: set<Text>)
    requires LooksLikeToolCall(s, names)
    ensures LooksLikeToolCall(s + rest, names)
  {
    hide Occurs;
    assert [] + s + rest == s + rest;
    if Occurs(TOOL_CALL_PREFIX, s) {
      OccursWithin(TOOL_CALL_PREFIX, [], s, rest);
    } else {
      var name :| name in names && Occurs(name + [COLON], s);
      OccursWithin(name + [COLON], [], s, rest);
    }
  }

  /** The part of a reply that is sniffed for certain. */
  function SniffedHead(s: Text): Text {
    if |s| < TOOL_CALL_SNIFF_CHARS then s else s[..TOOL_CALL_SNIFF_CHARS]
  }

  lemma WindowHoldsHead(deltas: seq<Text>)
    ensures var k := WindowEnd(deltas, 0); var s, window := Concat(deltas), Concat(deltas[..k]);
      && s == window + Concat(deltas[k..])
      && var head := SniffedHead(s);
         head <= window && window == head + window[|head|..]
  {
    hide WindowEnd, Concat;
    var k := WindowEnd(deltas, 0);
    assert deltas == deltas[..k] + deltas[k..];
    ConcatConcat(deltas[..k], deltas[k..]);
    if k == |deltas| {
      assert deltas[..k] == deltas;
    }
    HeadOfWindow(Concat(deltas), Concat(deltas[..k]), Concat(deltas[k..]));
  }

  lemma HeadOfWindow(s: Text, window: Text, rest: Text)
    requires s == window + rest && (window == s || |window| >= TOOL_CALL_SNIFF_CHARS)
    ensures var head := SniffedHead(s);
      head <= window && window == head + window[|head|..]
  {
  }

  /**
   Whatever the deltas, an attempt within the first 200 characters (or in a shorter
   reply) is caught before anything is forwarded, a caught attempt is in the reply,
   and otherwise the reply is forwarded whole.
   */
  lemma SniffCatches(deltas: seq<Text>, names: set<Text>)
    ensures var s := Concat(deltas); var r := Sniff(deltas, false, names);
      && (LooksLikeToolCall(SniffedHead(s), names) ==> r == ToolCall)
      && (r == ToolCall ==> LooksLikeToolCall(s, names))
      && (r.Forward? ==> Concat(r.parts) == s)
  {
    hide LooksLikeToolCall, Concat;
    var k := WindowEnd(deltas, 0);
    var window, s := Concat(deltas[..k]), Concat(deltas);
    var head := SniffedHead(s);
    WindowHoldsHead(deltas);
    if LooksLikeToolCall(head, names) {
      LooksLikeWithin(head, window[|head|..], names);
    }
    if LooksLikeToolCall(window, names) {
      LooksLikeWithin(window, Concat(deltas[k..]), names);
    } else if window != [] {
      ConcatOne(window);
      ConcatConcat([window], deltas[k..]);
    } else {
      assert [] + deltas[k..] == deltas[k..];
    }
  }

  /** An attempt shows in the first 200 characters, or nowhere in the reply. */
  predicate AttemptShowsEarly(s: Text, names: set<Text>) {
    LooksLikeToolCall(SniffedHead(s), names) || !LooksLikeToolCall(s, names)
  }

  /** Given whole, a reply is sniffed whole; cut after 200 characters, only those are. */
  lemma SniffWholeOrHead(s: Text, names: set<Text>)
    requires |s| >= TOOL_CALL_SNIFF_CHARS
    ensures var n := TOOL_CALL_SNIFF_CHARS;
      && Concat([s]) == s && Concat([s[..n], s[n..]]) == s
      && (Sniff([s], false, names).ToolCall? <==> LooksLikeToolCall(s, names))
      && (Sniff([s[..n], s[n..]], false, names).ToolCall? <==> LooksLikeToolCall(s[..n], names))
  {
    hide LooksLikeToolCall;
    var n := TOOL_CALL_SNIFF_CHARS;
    var two := [s[..n], s[n..]];
    ConcatOne(s);
    ConcatOne(s[..n]);
    ConcatOne(s[n..]);
    assert [s][..0] == [] && [s][..1] == [s] && Concat([]) == [];
    assert two[..0] == [] && two[..1] == [s[..n]] && two == [s[..n]] + [s[n..]];
    ConcatConcat([s[..n]], [s[n..]]);
    assert WindowEnd([s], 0) == WindowEnd([s], 1) == 1;
    assert WindowEnd(two, 0) == WindowEnd(two, 1) == 1;
  }

  /**
   Whether a reply falls back to the tool loop does not depend on how it is cut,
   exactly if an attempt in it shows in the first 200 characters.
   */
  lemma SniffIgnoresCutsExactly(s: Text, names: set<Text>)
    ensures AttemptShowsEarly(s, names) <==>
      forall a, b | Concat(a) == s && Concat(b) == s ::
        Sniff(a, false, names).ToolCall? == Sniff(b, false, names).ToolCall?
  {
    hide LooksLikeToolCall, Sniff, Concat;
    if AttemptShowsEarly(s, names) {
      forall a, b | Concat(a) == s && Concat(b) == s
        ensures Sniff(a, false, names).ToolCall? == Sniff(b, false, names).ToolCall?
      {
        SniffCatches(a, names);
        SniffCatches(b, names);
      }
    } else {
      SniffWholeOrHead(s, names);
    }
  }

  // ---------------------------------------------------------------------------
  // The reply loop

  datatype End = Running | Violated | Leaked

  /** accumulated chunks, text_delta events, marker_tail, and how the loop was left. */
  datatype Loop = Loop(accumulated: Text, events: seq<Text>, tail: Text, end: End)

  const EMPTY_LOOP := Loop([], [], [], Running)

  function Event(s: Text): seq<Text> {
    if s == [] then [] else [s]
  }

  /**
   One chunk. The script and language checks are a parameter of the chunk and of
   all the chunks so far; they are made only while nothing has been shown.
   */
  function LoopOne(st: Loop, chunk: Text, violates: (Text, Text) -> bool): Loop {
    if st.end != Running then st
    else if st.events == [] && violates(chunk, st.accumulated + chunk) then
      st.(accumulated := st.accumulated + chunk, end := Violated)
    else
      var r := StreamSafeSanitize(st.tail + chunk);
      if r.Leak? then Loop(st.accumulated + chunk, st.events + Event(LEAK_REFUSAL), [], Leaked)
      else Loop(st.accumulated + chunk, st.events + Event(r.safe), r.tail, Running)
  }

  function LoopAll(st: Loop, chunks: seq<Text>, violates: (Text, Text) -> bool): Loop
    decreases |chunks|
  {
    if chunks == [] then st else LoopAll(LoopOne(st, chunks[0], violates), chunks[1..], violates)
  }

  /** After the last chunk nothing is held back any more. */
  function FinalFlush(st: Loop): Loop {
    if st.end != Running then st
    else
      var r := StreamSafeSanitize(st.tail);
      if r.Leak? then st.(events := st.events + Event(LEAK_REFUSAL), tail := [], end := Leaked)
      else st.(events := st.events + Event(r.safe + r.tail), tail := [])
  }

  datatype Outcome =
    | FallBack                                // a tool call: run_turn answers instead
    | ProviderError(shown: seq<Text>)
    | Done(shown: seq<Text>, end: End)

  /** Everything stream_turn shows of its own stream before its closing event. */
  function Reply(deltas: seq<Text>, fails: bool, names: set<Text>, violates: (Text, Text) -> bool,
                 corrected: Text): Outcome {
    var sniffed := Sniff(deltas, fails, names);
    if sniffed.ToolCall? then FallBack
    else
      var chunks := if fails then FeedAll(INITIAL_STREAM, sniffed.parts).chunks else Chunks(sniffed.parts);
      var st := LoopAll(EMPTY_LOOP, chunks, violates);
      if fails && st.end == Running then ProviderError(st.events)
      else var end := FinalFlush(st); Done(end.events + (if end.end == Violated then [corrected] else []), end.end)
  }

  lemma {:induction false} LoopLeft(st: Loop, chunks: seq<Text>, violates: (Text, Text) -> bool)
    requires st.end != Running
    ensures LoopAll(st, chunks, violates) == st
  {
    if chunks != [] {
      LoopLeft(st, chunks[1..], violates);
    }
  }

  /** The loop over the chunks, with its two ways out. */
  method ReplyLoop(chunks: seq<Text>, violates: (Text, Text) -> bool) returns (st: Loop)
    ensures st == LoopAll(EMPTY_LOOP, chunks, violates)
  {
    hide StreamSafeSanitize, LEAK_REFUSAL, LoopAll;
    var accumulated: Text, events: seq<Text>, tail: Text, yieldedAnything := [], [], [], false;
    for i := 0 to |chunks|
      invariant yieldedAnything == (events != [])
      invariant LoopAll(Loop(accumulated, events, tail, Running), chunks[i..], violates)
        == LoopAll(EMPTY_LOOP, chunks, violates)
    {
      var chunk := chunks[i];
      ghost var before := Loop(accumulated, events, tail, Running);
      NextChunk(before, chunks, i, violates);
      assert events + [] == events;
      accumulated := accumulated + chunk;
      if !yieldedAnything && violates(chunk, accumulated) {
        LoopLeft(LoopOne(before, chunk, violates), chunks[i + 1..], violates);
        return Loop(accumulated, events, tail, Violated);
      }
      var screened := StreamSafeSanitize(tail + chunk);
      var safe := if screened.Leak? then LEAK_REFUSAL else screened.safe;
      tail := if screened.Leak? then [] else screened.tail;
      if safe != [] {
        events := events + [safe];
        yieldedAnything := true;
      }
      if screened.Leak? {
        LoopLeft(LoopOne(before, chunk, violates), chunks[i + 1..], violates);
        return Loop(accumulated, events, tail, Leaked);
      }
    }
    assert chunks[|chunks|..] == [];
    NoMoreChunks(Loop(accumulated, events, tail, Running), violates);
    return Loop(accumulated, events, tail, Running);
  }

  lemma NoMoreChunks(st: Loop, violates: (Text, Text) -> bool)
    ensures LoopAll(st, [], violates) == st
  {
  }

  lemma NextChunk(st: Loop, chunks: seq<Text>, i: nat, violates: (Text, Text) -> bool)
    requires i < |chunks|
    ensures LoopAll(st, chunks[i..], violates) == LoopAll(LoopOne(st, chunks[i], violates), chunks[i + 1..], violates)
  {
    assert chunks[i..][1..] == chunks[i + 1..];
  }

  /** stream_turn, up to its closing event; `corrected` is what the model answers when told of a violation. */
  method StreamTurn(deltas: seq<Text>, fails: bool, names: set<Text>, violates: (Text, Text) -> bool, corrected: Text)
    returns (outcome: Outcome)
    requires NulFree(Concat(deltas))
    ensures outcome == Reply(deltas, fails, names, violates, corrected)
  {
    hide Sniff, LoopAll, Chunks, FeedAll, StreamSafeSanitize, NulFree, LEAK_REFUSAL, EMPTY_LOOP, INITIAL_STREAM;
    var sniffed := SniffAndForward(deltas, fails, names);
    if sniffed.ToolCall? {
      return FallBack;
    }
    PartsNulFree(deltas, fails, names);
    var chunks := ChunkStream.ChunkStream(sniffed.parts, fails);
    var st := ReplyLoop(chunks, violates);
    var events, end := st.events, st.end;
    assert events + [] == events;
    if end == Running && fails {
      return ProviderError(events);
    }
    if end == Running {
      var screened := StreamSafeSanitize(st.tail);
      var flush := if screened.Leak? then LEAK_REFUSAL else screened.safe + screened.tail;
      if screened.Leak? {
        end := Leaked;
      }
      if flush != [] {
        events := events + [flush];
      }
    }
    if end == Violated {
      events := events + [corrected];
    }
    assert events + [] == events;
    return Done(events, end);
  }

  lemma PartsNulFree(deltas: seq<Text>, fails: bool, names: set<Text>)
    requires NulFree(Concat(deltas)) && Sniff(deltas, fails, names).Forward?
    ensures NulFree(Concat(Sniff(deltas, fails, names).parts))
  {
    hide LooksLikeToolCall;
    SniffCatches(deltas, names);
    var k := WindowEnd(deltas, 0);
    assert Concat([]) == [];
  }

  // ---------------------------------------------------------------------------
  // What the user is shown

  /** While it runs, the loop shows and holds what the screen does. */
  lemma {:induction false} LoopScreens(st: Loop, chunks: seq<Text>, violates: (Text, Text) -> bool)
    requires st.end == Running && LoopAll(st, chunks, violates).end != Violated
    ensures var end := LoopAll(st, chunks, violates);
      && ScreenAll(Streaming(Concat(st.events), st.tail), chunks)
        == (if end.end == Running then Streaming(Concat(end.events), end.tail) else Stopped(Concat(end.events)))
    decreases |chunks|
  {
    hide StreamSafeSanitize, LEAK_REFUSAL;
    if chunks != [] {
      var next := LoopOne(st, chunks[0], violates);
      if next.end != Running {
        LoopLeft(next, chunks[1..], violates);
      }
      LoopScreensOne(st, chunks[0], violates);
      if next.end == Running {
        LoopScreens(next, chunks[1..], violates);
      } else {
        StoppedStays(Concat(next.events), chunks[1..]);
      }
    }
  }

  lemma LoopScreensOne(st: Loop, chunk: Text, violates: (Text, Text) -> bool)
    requires st.end == Running && LoopOne(st, chunk, violates).end != Violated
    ensures var next := LoopOne(st, chunk, violates);
      && next.end in {Running, Leaked}
      && ScreenOne(Streaming(Concat(st.events), st.tail), chunk)
        == (if next.end == Running then Streaming(Concat(next.events), next.tail) else Stopped(Concat(next.events)))
  {
    hide StreamSafeSanitize, LEAK_REFUSAL;
    var r := StreamSafeSanitize(st.tail + chunk);
    ConcatEvent(st.events, if r.Leak? then LEAK_REFUSAL else r.safe);
  }

  lemma ConcatEvent(events: seq<Text>, s: Text)
    ensures Concat(events + Event(s)) == Concat(events) + s
  {
    ConcatConcat(events, Event(s));
    if s != [] {
      ConcatOne(s);
    }
  }

  /**
   Without a tool call, a violation or a failure, and if the chunks contain no `<`,
   no marker and no leak phrase, the user is shown exactly the chunks, which are the
   model's reply up to whitespace and commas.
   */
  lemma WholeReplyIsShown(deltas: seq<Text>, names: set<Text>, violates: (Text, Text) -> bool, corrected: Text)
    requires NulFree(Concat(deltas))
    requires Sniff(deltas, false, names).Forward?
    requires var chunks := Chunks(Sniff(deltas, false, names).parts);
      && Plain(Concat(chunks)) && !Leaks(Concat(chunks)) && LoopAll(EMPTY_LOOP, chunks, violates).end != Violated
    ensures var outcome := Reply(deltas, false, names, violates, corrected);
      && outcome.Done? && outcome.end == Running
      && Concat(outcome.shown) == Concat(Chunks(Sniff(deltas, false, names).parts))
      && Squeeze(Concat(outcome.shown)) == Squeeze(Concat(deltas))
  {
    hide Sniff, Chunks, Leaks, Plain, LoopAll, ScreenAll, StreamSafeSanitize, Squeeze, NulFree;
    var parts := Sniff(deltas, false, names).parts;
    var chunks := Chunks(parts);
    SniffCatches(deltas, names);
    ChunksKeepContent(parts);
    var st := LoopAll(EMPTY_LOOP, chunks, violates);
    LoopScreens(EMPTY_LOOP, chunks, violates);
    HeldAfter(chunks);
    HoldsMeans(Concat(chunks), ScreenAll(NOTHING_SHOWN, chunks));
    var shown := Concat(st.events);
    assert shown + st.tail + [] == Concat(chunks);
    PlainPart(shown, st.tail, []);
    if Leaks(st.tail) {
      LeaksWithin(shown, st.tail, []);
    }
    PlainIsScreened(st.tail);
    var r := StreamSafeSanitize(st.tail);
    ConcatEvent(st.events, r.safe + r.tail);
    var events := st.events + Event(r.safe + r.tail);
    assert events + [] == events;
  }

  // ---------------------------------------------------------------------------
  // How a streamed reply ends

  /** What the screen has after the first k chunks. */
  function ScreenAfter(chunks: seq<Text>, k: nat): Screen
    requires k <= |chunks|
  {
    ScreenAll(NOTHING_SHOWN, chunks[..k])
  }

  /** Chunk k is found in the wrong language or script, with nothing shown before it. */
  predicate ViolatesAt(chunks: seq<Text>, violates: (Text, Text) -> bool, k: nat)
    requires k < |chunks|
  {
    ScreenAfter(chunks, k).shown == [] && violates(chunks[k], Concat(chunks[..k + 1]))
  }

  /** Neither a violation nor a leak in the first n chunks. */
  predicate FineUntil(chunks: seq<Text>, violates: (Text, Text) -> bool, n: nat)
    requires n <= |chunks|
  {
    && ScreenAfter(chunks, n).Streaming?
    && (forall k | 0 <= k < n :: !ViolatesAt(chunks, violates, k))
  }

  /** The loop after n chunks in which nothing was found. */
  predicate LoopIs(st: Loop, chunks: seq<Text>, n: nat)
    requires n <= |chunks|
  {
    && st.end == Running && st.accumulated == Concat(chunks[..n])
    && ScreenAfter(chunks, n) == Streaming(Concat(st.events), st.tail)
    && (st.events == [] <==> Concat(st.events) == [])
  }

  lemma ScreenOneMore(chunks: seq<Text>, n: nat)
    requires n < |chunks|
    ensures ScreenAfter(chunks, n + 1) == ScreenOne(ScreenAfter(chunks, n), chunks[n])
    ensures Concat(chunks[..n + 1]) == Concat(chunks[..n]) + chunks[n]
  {
    assert chunks[..n + 1] == chunks[..n] + [chunks[n]];
    ScreenAllSplits(NOTHING_SHOWN, chunks[..n], [chunks[n]]);
    OneMore(ScreenAfter(chunks, n), chunks[n]);
    ConcatConcat(chunks[..n], [chunks[n]]);
    ConcatOne(chunks[n]);
  }

  lemma EventsMore(events: seq<Text>, s: Text)
    requires events == [] <==> Concat(events) == []
    ensures (events + Event(s) == []) <==> (Concat(events + Event(s)) == [])
    ensures Concat(events + Event(s)) == Concat(events) + s
  {
    ConcatEvent(events, s);
    assert events + [] == events;
  }

  /** One chunk: found wrong, found to leak, or screened. */
  lemma LoopOneIs(st: Loop, chunks: seq<Text>, violates: (Text, Text) -> bool, n: nat)
    requires n < |chunks| && LoopIs(st, chunks, n)
    ensures var next := LoopOne(st, chunks[n], violates);
      if ViolatesAt(chunks, violates, n) then next.end == Violated && next.events == []
      else if ScreenAfter(chunks, n + 1).Stopped? then
        next.end == Leaked && ScreenAfter(chunks, n + 1).shown == Concat(next.events)
      else LoopIs(next, chunks, n + 1)
  {
    hide StreamSafeSanitize, LEAK_REFUSAL, ScreenAfter;
    ScreenOneMore(chunks, n);
    var r := StreamSafeSanitize(st.tail + chunks[n]);
    EventsMore(st.events, if r.Leak? then LEAK_REFUSAL else r.safe);
  }

  /** The first chunk at which something is found decides. */
  lemma {:induction false} LoopFrom(st: Loop, chunks: seq<Text>, violates: (Text, Text) -> bool, n: nat)
    returns (k: nat)
    requires n <= |chunks| && LoopIs(st, chunks, n) && FineUntil(chunks, violates, n)
    ensures n <= k <= |chunks| && FineUntil(chunks, violates, k)
    ensures var end := LoopAll(st, chunks[n..], violates);
      if k == |chunks| then LoopIs(end, chunks, k)
      else if ViolatesAt(chunks, violates, k) then end.end == Violated && end.events == []
      else
        && ScreenAfter(chunks, k + 1).Stopped? && end.end == Leaked
        && ScreenAfter(chunks, k + 1).shown == Concat(end.events)
    decreases |chunks| - n
  {
    hide ScreenAfter, LoopOne, ViolatesAt, LoopIs;
    k := n;
    if n < |chunks| {
      var next := LoopOne(st, chunks[n], violates);
      NextChunk(st, chunks, n, violates);
      LoopOneIs(st, chunks, violates, n);
      if ViolatesAt(chunks, violates, n) || ScreenAfter(chunks, n + 1).Stopped? {
        LoopLeft(next, chunks[n + 1..], violates);
      } else {
        StillFine(chunks, violates, n);
        k := LoopFrom(next, chunks, violates, n + 1);
      }
    } else {
      assert chunks[n..] == [];
      NoMoreChunks(st, violates);
    }
  }

  lemma StillFine(chunks: seq<Text>, violates: (Text, Text) -> bool, n: nat)
    requires n < |chunks| && FineUntil(chunks, violates, n)
    requires !ViolatesAt(chunks, violates, n) && !ScreenAfter(chunks, n + 1).Stopped?
    ensures FineUntil(chunks, violates, n + 1)
  {
  }

  lemma StartsFine(chunks: seq<Text>, violates: (Text, Text) -> bool)
    ensures LoopIs(EMPTY_LOOP, chunks, 0) && FineUntil(chunks, violates, 0) && chunks[0..] == chunks
  {
    assert chunks[..0] == [];
  }

  /** The chunks of a reply: of a stream that fails, those of its whole sentences only. */
  function ChunksOf(parts: seq<Text>, fails: bool): seq<Text> {
    if fails then FeedAll(INITIAL_STREAM, parts).chunks else Chunks(parts)
  }

  /** What the last flush adds to what was shown: all that was held, or the refusal. */
  function Flushed(tail: Text): Text {
    var r := StreamSafeSanitize(tail);
    if r.Leak? then LEAK_REFUSAL else r.safe + r.tail
  }

  /**
   How a streamed reply ends. It falls back exactly if an attempt was sniffed. Else,
   with k the number of chunks before the first violation or leak: a violation shows the
   correction alone; a leak shows what the screen had shown, with the refusal last. If
   neither is found, a stream that failed is a provider error, which has shown what the
   screen released of its whole sentences, and nothing of what was held; and one that
   did not fail also shows all that was held.
   */
  lemma ReplyEndsExactly(deltas: seq<Text>, fails: bool, names: set<Text>, violates: (Text, Text) -> bool,
                         corrected: Text)
    returns (k: nat)
    ensures Sniff(deltas, fails, names).ToolCall? <==> Reply(deltas, fails, names, violates, corrected).FallBack?
    ensures Sniff(deltas, fails, names).Forward? ==>
      var chunks := ChunksOf(Sniff(deltas, fails, names).parts, fails);
      var outcome := Reply(deltas, fails, names, violates, corrected);
      && k <= |chunks| && FineUntil(chunks, violates, k)
      && (k < |chunks| ==> ViolatesAt(chunks, violates, k) || ScreenAfter(chunks, k + 1).Stopped?)
      && (outcome.ProviderError? <==> fails && k == |chunks|)
      && if k == |chunks| then
           if fails then Concat(outcome.shown) == ScreenAfter(chunks, k).shown
           else
             var tail := ScreenAfter(chunks, k).tail;
             && outcome.Done? && Concat(outcome.shown) == ScreenAfter(chunks, k).shown + Flushed(tail)
             && outcome.end == if StreamSafeSanitize(tail).Leak? then Leaked else Running
         else if ViolatesAt(chunks, violates, k) then outcome == Done([corrected], Violated)
         else outcome.Done? && outcome.end == Leaked && Concat(outcome.shown) == ScreenAfter(chunks, k + 1).shown
  {
    hide Sniff, Chunks, FeedAll, LoopAll, StreamSafeSanitize, LEAK_REFUSAL, ScreenAfter, ViolatesAt, FineUntil,
      INITIAL_STREAM;
    k := 0;
    var sniffed := Sniff(deltas, fails, names);
    if sniffed.Forward? {
      var chunks := ChunksOf(sniffed.parts, fails);
      StartsFine(chunks, violates);
      k := LoopFrom(EMPTY_LOOP, chunks, violates, 0);
      var st := LoopAll(EMPTY_LOOP, chunks, violates);
      assert [] + [corrected] == [corrected];
      assert FinalFlush(st).events + [] == FinalFlush(st).events;
      if k == |chunks| {
        var r := StreamSafeSanitize(st.tail);
        EventsMore(st.events, if r.Leak? then LEAK_REFUSAL else r.safe + r.tail);
      }
    }
  }

  lemma {:induction false} ViolatedLoopShowsNothing(st: Loop, chunks: seq<Text>, violates: (Text, Text) -> bool)
    requires LoopAll(st, chunks, violates).end == Violated && (st.end == Violated ==> st.events == [])
    ensures LoopAll(st, chunks, violates).events == []
    decreases |chunks|
  {
    hide StreamSafeSanitize, LEAK_REFUSAL;
    if chunks != [] {
      ViolatedLoopShowsNothing(LoopOne(st, chunks[0], violates), chunks[1..], violates);
    }
  }

  /** A reply caught in the wrong language is not shown at all: the correction is all there is. */
  lemma ViolationShowsOnlyCorrection(deltas: seq<Text>, fails: bool, names: set<Text>, violates: (Text, Text) -> bool,
                                     corrected: Text)
    requires var o := Reply(deltas, fails, names, violates, corrected); o.Done? && o.end == Violated
    ensures Reply(deltas, fails, names, violates, corrected).shown == [corrected]
  {
    hide Sniff, Chunks, FeedAll, LoopAll, StreamSafeSanitize;
    var parts := Sniff(deltas, fails, names).parts;
    var chunks := if fails then FeedAll(INITIAL_STREAM, parts).chunks else Chunks(parts);
    ViolatedLoopShowsNothing(EMPTY_LOOP, chunks, violates);
    assert [] + [corrected] == [corrected];
  }

  // ---------------------------------------------------------------------------
  // Cuts

  lemma SniffedParts(deltas: seq<Text>, names: set<Text>)
    requires Sniff(deltas, false, names).Forward?
    ensures var k := WindowEnd(deltas, 0); var window := Concat(deltas[..k]);
      Sniff(deltas, false, names).parts == if window == [] then [] else [window] + deltas[k..]
  {
    hide LooksLikeToolCall;
    var k := WindowEnd(deltas, 0);
    if Concat(deltas[..k]) == [] {
      assert deltas[k..] == [];
    }
  }

  /** Sniffing only joins deltas, so it makes no new cut. */
  lemma SniffedCutIsACut(deltas: seq<Text>, names: set<Text>, i: nat)
    requires Sniff(deltas, false, names).Forward? && i <= |Sniff(deltas, false, names).parts|
    requires forall j | 0 <= j <= |deltas| :: !BadCut(deltas, j)
    ensures !BadCut(Sniff(deltas, false, names).parts, i)
  {
    hide Sniff, SplitsDecimal;
    SniffedParts(deltas, names);
    var parts := Sniff(deltas, false, names).parts;
    var k := WindowEnd(deltas, 0);
    var window := Concat(deltas[..k]);
    if i == 0 {
      assert parts[..0] == [];
      NothingBeforeCut(Concat(parts[0..]));
    } else {
      var j := k + i - 1;
      PartsAt(window, deltas[k..], i);
      assert deltas[k..][..i - 1] == deltas[k..j] && deltas[k..][i - 1..] == deltas[j..];
      assert deltas[..j] == deltas[..k] + deltas[k..j];
      ConcatConcat(deltas[..k], deltas[k..j]);
      ConcatConcat([window], deltas[k..j]);
      ConcatOne(window);
      assert !BadCut(deltas, j);
    }
  }

  lemma PartsAt(window: Text, later: seq<Text>, i: nat)
    requires 0 < i <= 1 + |later|
    ensures ([window] + later)[..i] == [window] + later[..i - 1]
    ensures ([window] + later)[i..] == later[i - 1..]
  {
  }

  lemma NothingBeforeCut(q: Text)
    ensures !SplitsDecimal(Concat([]), q)
  {
  }

  /**
   Two ways of cutting one reply, neither of which cuts right after the decimal point
   of a number, show the user the same deltas and end the same way, if an attempt at
   a tool call shows in the first 200 characters or nowhere.
   */
  lemma ReplyIgnoresCuts(deltas: seq<Text>, others: seq<Text>, names: set<Text>, violates: (Text, Text) -> bool,
                         corrected: Text)
    requires Concat(deltas) == Concat(others)
    requires AttemptShowsEarly(Concat(deltas), names)
    requires forall i | 0 <= i <= |deltas| :: !BadCut(deltas, i)
    requires forall i | 0 <= i <= |others| :: !BadCut(others, i)
    ensures Reply(deltas, false, names, violates, corrected) == Reply(others, false, names, violates, corrected)
  {
    hide Chunks, LoopAll, FinalFlush, Sniff, BadCut, AttemptShowsEarly, Concat;
    SniffIgnoresCutsExactly(Concat(deltas), names);
    if Sniff(deltas, false, names).Forward? {
      WholeChunks(deltas, names);
      WholeChunks(others, names);
    }
  }

  lemma WholeChunks(deltas: seq<Text>, names: set<Text>)
    requires Sniff(deltas, false, names).Forward? && forall i | 0 <= i <= |deltas| :: !BadCut(deltas, i)
    ensures Chunks(Sniff(deltas, false, names).parts) == Chunks([Concat(deltas)])
  {
    hide Chunks, BadCut, Sniff;
    var parts := Sniff(deltas, false, names).parts;
    forall i | 0 <= i <= |parts| ensures !BadCut(parts, i) {
      SniffedCutIsACut(deltas, names, i);
    }
    GoodCutsGiveWholeText(parts);
    SniffCatches(deltas, names);
  }
}
