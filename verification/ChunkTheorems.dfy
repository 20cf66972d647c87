/**
 What holds of `chunk_stream` over every way a reply can be cut into deltas.
 */
module ChunkTheorems {
  import opened Text
  import opened Chunker
  import opened ChunkStream

  // ---------------------------------------------------------------------------
  // Content is kept, whatever the deltas

  lemma NulFreeConcat(a: Text, b: Text)
    requires NulFree(a + b)
    ensures NulFree(a) && NulFree(b)
  {
    NulFreeParts(a, b);
  }

  lemma {:induction false} WordsNulFree(s: Text)
    requires NulFree(s)
    ensures forall k | 0 <= k < |Words(s)| :: NulFree(Words(s)[k])
    decreases |s|
  {
    if s != [] {
      WordsNulFree(if s[0].Space? then s[1..] else s[SpanWord(s)..]);
    }
  }

  lemma {:induction false} JoinNulFree(words: seq<Text>)
    requires forall k | 0 <= k < |words| :: NulFree(words[k])
    ensures NulFree(Join(words))
  {
    if |words| > 1 {
      JoinNulFree(words[1..]);
    }
  }

  lemma EmitKeeps(sentence: Text, first: bool)
    requires NulFree(sentence)
    ensures Squeeze(Concat(Emit(sentence, first))) == Squeeze(sentence)
  {
    hide Squeeze, Words, Join, Strip, FinalizeSentence;
    if !first && |Words(sentence)| > FIRST_CHUNK_MAX_WORDS {
      var head, tail := Join(Words(sentence)[..FIRST_CHUNK_MAX_WORDS]), Join(Words(sentence)[FIRST_CHUNK_MAX_WORDS..]);
      WordsNulFree(sentence);
      JoinNulFree(Words(sentence)[FIRST_CHUNK_MAX_WORDS..]);
      StripKeeps(head);
      FinalizeKeeps(tail);
      SplitWordsKeep(sentence, FIRST_CHUNK_MAX_WORDS);
      assert ([Strip(head)] + FinalizeSentence(tail))[1..] == FinalizeSentence(tail);
      SqueezeConcat(Strip(head), Concat(FinalizeSentence(tail)));
    } else {
      FinalizeKeeps(sentence);
    }
  }

  /** The content a stream holds: what was yielded, then what is buffered. */
  function Content(st: Stream): Text {
    Squeeze(Concat(st.chunks)) + Squeeze(st.buffer)
  }

  lemma {:induction false} DrainKeeps(st: Stream)
    requires NulFree(st.buffer)
    ensures Content(Drain(st)) == Content(st) && NulFree(Drain(st).buffer)
    decreases |st.buffer|
  {
    hide SentenceLength, Emit, Squeeze;
    var n := SentenceLength(st.buffer);
    if n > 0 {
      var sentence, rest := st.buffer[..n], st.buffer[n..];
      assert st.buffer == sentence + rest;
      NulFreeConcat(sentence, rest);
      EmitKeeps(sentence, st.firstEmitted);
      ConcatConcat(st.chunks, Emit(sentence, st.firstEmitted));
      SqueezeConcat(Concat(st.chunks), Concat(Emit(sentence, st.firstEmitted)));
      SqueezeConcat(sentence, rest);
      Regroup(Squeeze(Concat(st.chunks)), Squeeze(sentence), Squeeze(rest));
      DrainKeeps(Stream(rest, true, st.chunks + Emit(sentence, st.firstEmitted)));
    }
  }

  lemma {:induction false} FeedAllKeeps(st: Stream, deltas: seq<Text>)
    requires NulFree(st.buffer) && NulFree(Concat(deltas))
    ensures Content(FeedAll(st, deltas)) == Content(st) + Squeeze(Concat(deltas))
    ensures NulFree(FeedAll(st, deltas).buffer)
    decreases |deltas|
  {
    hide Drain, Squeeze;
    if deltas == [] {
      assert Squeeze([]) == [] by { SqueezeBlank([]); }
    } else {
      var d, later := deltas[0], Concat(deltas[1..]);
      NulFreeConcat(d, later);
      NulFreeParts(st.buffer, d);
      DrainKeeps(st.(buffer := st.buffer + d));
      FeedAllKeeps(Feed(st, d), deltas[1..]);
      SqueezeConcat(st.buffer, d);
      SqueezeConcat(d, later);
      Regroup(Squeeze(Concat(st.chunks)), Squeeze(st.buffer), Squeeze(d));
      Regroup(Content(st), Squeeze(d), Squeeze(later));
    }
  }

  /** The chunks in order are the reply, up to whitespace and commas. */
  lemma ChunksKeepContent(deltas: seq<Text>)
    requires NulFree(Concat(deltas))
    ensures Squeeze(Concat(Chunks(deltas))) == Squeeze(Concat(deltas))
  {
    hide Squeeze, FeedAll, Strip, FinalizeSentence;
    var st := FeedAll(INITIAL_STREAM, deltas);
    FeedAllKeeps(INITIAL_STREAM, deltas);
    assert Content(INITIAL_STREAM) == [] by { SqueezeBlank([]); }
    StripKeeps(st.buffer);
    var kept := Squeeze(Concat(st.chunks));
    assert [] + Squeeze(Concat(deltas)) == Squeeze(Concat(deltas));
    if Strip(st.buffer) == [] {
      SqueezeBlank([]);
      assert kept + [] == kept;
    } else {
      StripNulFree(st.buffer);
      FinalizeKeeps(Strip(st.buffer));
      ConcatConcat(st.chunks, FinalizeSentence(Strip(st.buffer)));
      SqueezeConcat(Concat(st.chunks), Concat(FinalizeSentence(Strip(st.buffer))));
    }
  }

  lemma StripNulFree(s: Text)
    requires NulFree(s)
    ensures NulFree(Strip(s))
  {
  }

  // ---------------------------------------------------------------------------
  // Where a cut may fall

  /** The text ends in a number without fraction and a dot outside it. */
  predicate EndsInNumberDot(s: Text)
    decreases |s|
  {
    s != [] &&
    var r := RunLength(s);
    if r > 0 then (s[r..] == [Dot] && Dot !in s[..r]) || EndsInNumberDot(s[r..])
    else EndsInNumberDot(s[1..])
  }

  /** The number whose point is cut off is the run at the head of the text. */
  predicate CutAtHead(s: Text) {
    RunLength(s) > 0 && s[RunLength(s)..] == [Dot] && Dot !in s[..RunLength(s)]
  }

  /** The cut between `s` and `q` falls right after the decimal point of a number. */
  predicate SplitsDecimal(s: Text, q: Text) {
    q != [] && q[0].Digit? && EndsInNumberDot(s)
  }

  lemma NoRunStable(s: Text, q: Text)
    requires RunLength(s) == 0 && s != [] && (EndMark(s[0]) || |s| > 1)
    ensures RunLength(s + q) == 0
  {
    assert SignLength(s + q) == SignLength(s) < |s|;
  }

  /** Where the digits and commas of the run at the head of the text end. */
  function BodyLength(s: Text): (n: nat)
    requires RunLength(s) > 0
    ensures n <= |s|
  {
    SignLength(s) + 1 + SpanDigitsCommas(s[SignLength(s) + 1..])
  }

  lemma BodyHasNoDot(s: Text)
    requires RunLength(s) > 0
    ensures Dot !in s[..BodyLength(s)]
  {
    var sign, body := SignLength(s), BodyLength(s);
    forall k | 0 <= k < body
      ensures s[k] != Dot
    {
      if k > sign {
        assert s[k] == s[sign + 1..][k - sign - 1];
      }
    }
  }

  lemma BodyStable(s: Text, q: Text)
    requires 0 < RunLength(s) < |s|
    ensures RunLength(s + q) > 0 && BodyLength(s + q) == BodyLength(s) < |s|
  {
    var sign := SignLength(s);
    assert SignLength(s + q) == sign;
    assert (s + q)[sign + 1..] == s[sign + 1..] + q;
    SpanDigitsCommasStable(s[sign + 1..], q);
  }

  /** Where a run ends, given where its digits and commas end. */
  function RunEnd(s: Text, body: nat): (n: nat)
    requires body <= |s|
    ensures n <= |s|
  {
    if body + 1 < |s| && s[body].Dot? && s[body + 1].Digit? then body + 1 + SpanDigits(s[body + 1..]) else body
  }

  lemma RunFromBody(s: Text)
    requires RunLength(s) > 0
    ensures RunLength(s) == RunEnd(s, BodyLength(s))
  {
  }

  lemma RunEndStable(s: Text, q: Text, body: nat)
    requires body < |s| && RunEnd(s, body) < |s|
    requires !(q != [] && q[0].Digit? && s[body..] == [Dot])
    ensures RunEnd(s + q, body) == RunEnd(s, body)
  {
    if body + 1 < |s| {
      assert (s + q)[body + 1..] == s[body + 1..] + q;
      if s[body].Dot? && s[body + 1].Digit? {
        SpanDigitsStable(s[body + 1..], q);
      }
    } else {
      assert s[body..] == [s[body]];
    }
  }

  /** A run that ends inside the text does not grow when more follows, unless its decimal point was cut off. */
  lemma RunStable(s: Text, q: Text)
    requires 0 < RunLength(s) < |s|
    requires !(q != [] && q[0].Digit? && s[RunLength(s)..] == [Dot] && Dot !in s[..RunLength(s)])
    ensures RunLength(s + q) == RunLength(s)
  {
    BodyStable(s, q);
    BodyHasNoDot(s);
    RunFromBody(s);
    RunFromBody(s + q);
    hide RunLength, BodyLength;
    var body := BodyLength(s);
    if s[body..] == [Dot] {
      assert RunEnd(s, body) == body;
    }
    RunEndStable(s, q, body);
  }

  lemma {:induction false} SpanDigitsCommasStable(s: Text, q: Text)
    requires SpanDigitsCommas(s) < |s|
    ensures SpanDigitsCommas(s + q) == SpanDigitsCommas(s)
  {
    assert (s + q)[1..] == s[1..] + q;
    if s[0].Digit? || s[0].Comma? {
      SpanDigitsCommasStable(s[1..], q);
    }
  }

  lemma {:induction false} SpanDigitsStable(s: Text, q: Text)
    requires SpanDigits(s) < |s|
    ensures SpanDigits(s + q) == SpanDigits(s)
  {
    assert (s + q)[1..] == s[1..] + q;
    if s[0].Digit? {
      SpanDigitsStable(s[1..], q);
    }
  }

  /** A sentence found in a prefix is the sentence of the whole, unless its end mark is a cut-off decimal point. */
  lemma {:induction false} SentenceStable(s: Text, q: Text)
    requires SentenceLength(s) > 0
    requires SentenceLength(s) < |s| || !SplitsDecimal(s, q)
    ensures SentenceLength(s + q) == SentenceLength(s)
    decreases |s|
  {
    assert s != [] by { NoSentence(); }
    hide RunLength, SentenceLength, EndMark, HeadLength, SplitsDecimal;
    if RunLength(s) == 0 && EndMark(s[0]) {
      NoRunStable(s, q);
      EndMarkStable(s, q);
    } else {
      RestIsStable(s, q);
      SentenceStable(s[HeadLength(s)..], q);
      StableBeyondHead(s, q);
    }
  }

  lemma EndMarkStable(s: Text, q: Text)
    requires s != [] && EndMark(s[0]) && RunLength(s) == 0 && RunLength(s + q) == 0
    ensures SentenceLength(s + q) == SentenceLength(s)
  {
    hide RunLength, SentenceLength, EndMark;
    BeyondHead(s, 0);
    BeyondHead(s + q, 0);
  }

  lemma RestIsStable(s: Text, q: Text)
    requires s != [] && !(RunLength(s) == 0 && EndMark(s[0])) && SentenceLength(s) > 0
    requires SentenceLength(s) < |s| || !SplitsDecimal(s, q)
    ensures var rest := s[HeadLength(s)..];
      SentenceLength(rest) > 0 && (SentenceLength(rest) < |rest| || !SplitsDecimal(rest, q))
  {
    hide RunLength, SentenceLength, EndMark, HeadLength, EndsInNumberDot;
    BeyondHead(s, 0);
    NumberDotHead(s);
  }

  lemma StableBeyondHead(s: Text, q: Text)
    requires s != [] && !(RunLength(s) == 0 && EndMark(s[0])) && SentenceLength(s) > 0
    requires SentenceLength(s) < |s| || !SplitsDecimal(s, q)
    requires SentenceLength(s[HeadLength(s)..] + q) == SentenceLength(s[HeadLength(s)..])
    ensures SentenceLength(s + q) == SentenceLength(s)
  {
    hide RunLength, SentenceLength, EndMark, SplitsDecimal;
    BeyondHead(s, 0);
    if RunLength(s) > 0 {
      HeadRunStable(s, q);
    } else {
      assert |s| > 1 by { NoSentence(); }
      NoRunStable(s, q);
    }
    assert (s + q)[HeadLength(s)..] == s[HeadLength(s)..] + q;
    BeyondHead(s + q, 0);
  }

  lemma NoSentence()
    ensures SentenceLength([]) == 0 && EndMark(Dot) && RunLength([Dot]) == 0
  {
  }

  lemma NumberDotHead(s: Text)
    requires s != []
    ensures EndsInNumberDot(s) <==> CutAtHead(s) || EndsInNumberDot(s[HeadLength(s)..])
  {
    hide RunLength;
  }

  lemma HeadRunStable(s: Text, q: Text)
    requires RunLength(s) > 0 && SentenceLength(s) > 0
    requires SentenceLength(s) < |s| || !SplitsDecimal(s, q)
    ensures RunLength(s + q) == RunLength(s)
  {
    hide RunLength, Units;
    NumberDotHead(s);
    BeyondHead(s, 0);
    NoSentence();
    assert RunLength(s) < |s|;
    if CutAtHead(s) {
      assert SentenceLength([Dot]) == 1;
    }
    RunStable(s, q);
  }

  /** Dropping the first sentence does not hide a cut-off decimal point, nor make one up. */
  lemma {:induction false} NumberDotAfterSentence(s: Text)
    requires 0 < SentenceLength(s) < |s|
    ensures EndsInNumberDot(s[SentenceLength(s)..]) <==> EndsInNumberDot(s)
    decreases |s|
  {
    hide RunLength, SentenceLength, EndsInNumberDot, Units, EndMark;
    BeyondHead(s, 0);
    NumberDotHead(s);
    if !(RunLength(s) == 0 && EndMark(s[0])) {
      var rest := s[HeadLength(s)..];
      NumberDotAfterSentence(rest);
      assert rest[SentenceLength(rest)..] == s[SentenceLength(s)..];
    }
  }

  lemma EmptyEndsInNothing()
    ensures !EndsInNumberDot([])
  {
  }

  // ---------------------------------------------------------------------------
  // Good cuts: the chunks are those of the whole text

  /** Draining a prefix first changes nothing, if the cut is good. */
  lemma {:induction false} DrainTwice(st: Stream, q: Text)
    requires !SplitsDecimal(st.buffer, q)
    ensures Drain(st.(buffer := st.buffer + q)) == Feed(Drain(st), q)
    decreases |st.buffer|
  {
    hide SentenceLength, Emit, SplitsDecimal;
    var s, n := st.buffer, SentenceLength(st.buffer);
    if n > 0 {
      SentenceStable(s, q);
      assert (s + q)[..n] == s[..n] && (s + q)[n..] == s[n..] + q;
      var next := Stream(s[n..], true, st.chunks + Emit(s[..n], st.firstEmitted));
      SuffixCut(s, q);
      DrainTwice(next, q);
    }
  }

  lemma SuffixCut(s: Text, q: Text)
    requires SentenceLength(s) > 0
    ensures SplitsDecimal(s[SentenceLength(s)..], q) ==> SplitsDecimal(s, q)
  {
    if SentenceLength(s) < |s| {
      NumberDotAfterSentence(s);
    } else {
      EmptyEndsInNothing();
    }
  }

  /** No cut between the deltas, from the buffered text on, splits a decimal. */
  ghost predicate GoodCuts(buffer: Text, deltas: seq<Text>) {
    forall i | 0 <= i <= |deltas| :: !SplitsDecimal(buffer + Concat(deltas[..i]), Concat(deltas[i..]))
  }

  /** Draining the buffer keeps later cuts good. */
  lemma {:induction false} DrainKeepsGood(st: Stream, x: Text, q: Text)
    requires !SplitsDecimal(st.buffer, x + q) && !SplitsDecimal(st.buffer + x, q)
    ensures !SplitsDecimal(Drain(st).buffer + x, q)
    decreases |st.buffer|
  {
    hide SentenceLength, Emit, EndsInNumberDot;
    var s, n := st.buffer, SentenceLength(st.buffer);
    if n > 0 {
      var next := Stream(s[n..], true, st.chunks + Emit(s[..n], st.firstEmitted));
      SuffixCut(s, x + q);
      if x != [] {
        assert (x + q)[0] == x[0];
      } else {
        assert s + x == s && x + q == q;
      }
      SentenceStable(s, x);
      assert (s + x)[n..] == s[n..] + x;
      SuffixCut(s + x, q);
      DrainKeepsGood(next, x, q);
    }
  }

  /** A good cut stays good once the first delta has been drained. */
  lemma LaterCutStaysGood(st: Stream, deltas: seq<Text>, i: nat)
    requires GoodCuts(st.buffer, deltas) && deltas != [] && i < |deltas|
    ensures !SplitsDecimal(Feed(st, deltas[0]).buffer + Concat(deltas[1..][..i]), Concat(deltas[1..][i..]))
    ensures !SplitsDecimal(st.buffer + deltas[0], Concat(deltas[1..]))
  {
    hide SplitsDecimal, Drain;
    var d, later := deltas[0], deltas[1..];
    assert deltas[..1] == [d] && Concat([d]) == d + [] == d;
    assert !SplitsDecimal(st.buffer + Concat(deltas[..1]), Concat(deltas[1..]));
    assert deltas[..i + 1][1..] == later[..i] && deltas[i + 1..] == later[i..];
    Regroup(st.buffer, d, Concat(later[..i]));
    assert !SplitsDecimal(st.buffer + Concat(deltas[..i + 1]), Concat(deltas[i + 1..]));
    assert later == later[..i] + later[i..];
    ConcatConcat(later[..i], later[i..]);
    DrainKeepsGood(st.(buffer := st.buffer + d), Concat(later[..i]), Concat(later[i..]));
  }

  lemma {:induction false} GoodCutsAreInvisible(st: Stream, deltas: seq<Text>)
    requires GoodCuts(st.buffer, deltas) && SentenceLength(st.buffer) == 0
    ensures FeedAll(st, deltas) == Feed(st, Concat(deltas))
    decreases |deltas|
  {
    hide SplitsDecimal, SentenceLength, Drain;
    if deltas == [] {
      assert st.buffer + [] == st.buffer;
      DrainDrained(st);
    } else {
      var d, later := deltas[0], deltas[1..];
      var full := st.(buffer := st.buffer + d);
      forall i | 0 <= i <= |later|
        ensures !SplitsDecimal(Feed(st, d).buffer + Concat(later[..i]), Concat(later[i..]))
      {
        LaterCutStaysGood(st, deltas, i);
      }
      DrainedBuffer(full);
      GoodCutsAreInvisible(Feed(st, d), later);
      LaterCutStaysGood(st, deltas, 0);
      DrainTwice(full, Concat(later));
      Regroup(st.buffer, d, Concat(later));
    }
  }

  lemma DrainDrained(st: Stream)
    requires SentenceLength(st.buffer) == 0
    ensures Drain(st) == st
  {
  }

  lemma {:induction false} DrainedBuffer(st: Stream)
    ensures SentenceLength(Drain(st).buffer) == 0
    decreases |st.buffer|
  {
    hide SentenceLength, Emit;
    var n := SentenceLength(st.buffer);
    if n > 0 {
      DrainedBuffer(Stream(st.buffer[n..], true, st.chunks + Emit(st.buffer[..n], st.firstEmitted)));
    }
  }

  // ---------------------------------------------------------------------------
  // Bad cuts: the chunks differ

  /** Every dot but perhaps the last character is inside a number. */
  predicate DotsInNumbers(s: Text) {
    DotsUpTo(s, |s|)
  }

  predicate EndsInDot(s: Text) {
    s != [] && s[|s| - 1] == Dot
  }

  lemma RunDots(s: Text)
    requires RunLength(s) > 0
    ensures forall k | 0 <= k < RunLength(s) && s[k].Dot? :: k + 1 < RunLength(s) && s[k + 1].Digit?
  {
    BodyHasNoDot(s);
    RunFromBody(s);
    var body, r := BodyLength(s), RunLength(s);
    assert forall k | 0 <= k < body :: s[k] in s[..body];
    assert forall k | body < k < r :: s[k] == s[body + 1..][k - body - 1];
  }

  /** Up to position `m` every dot but perhaps the last character is inside a number. */
  predicate DotsUpTo(s: Text, m: nat)
    requires m <= |s|
  {
    forall k | 0 <= k < m - 1 && s[k].Dot? :: s[k + 1].Digit?
  }

  lemma DotsAcross(s: Text, step: nat, m: nat)
    requires step <= m <= |s| && DotsUpTo(s[step..], m - step)
    requires forall k | 0 <= k < step && s[k].Dot? :: k + 1 < step && s[k + 1].Digit?
    ensures DotsUpTo(s, m)
  {
    forall k | 0 <= k < m - 1 && s[k].Dot?
      ensures s[k + 1].Digit?
    {
      if k >= step {
        assert s[step..][k - step] == s[k] && s[step..][k - step + 1] == s[k + 1];
      }
    }
  }

  /** Before the first end mark, or the end of a text without one, dots are inside numbers. */
  lemma {:induction false} SentenceDots(s: Text)
    ensures SentenceLength(s) > 0 ==> DotsUpTo(s, SentenceLength(s))
    ensures SentenceLength(s) == 0 ==> DotsUpTo(s, |s|) && !EndsInDot(s)
    decreases |s|
  {
    hide RunLength, DotsUpTo;
    if s == [] {
      NoDots();
    } else if RunLength(s) == 0 && EndMark(s[0]) {
      OneCharacterDots(s);
    } else {
      var step := if RunLength(s) > 0 then RunLength(s) else 1;
      SentenceStep(s);
      SentenceDots(s[step..]);
      if RunLength(s) > 0 {
        RunDots(s);
      }
      hide SentenceLength;
      if SentenceLength(s) > 0 {
        DotsAcross(s, step, SentenceLength(s));
      } else {
        DotsAcross(s, step, |s|);
      }
    }
  }

  lemma SentenceStep(s: Text)
    requires s != [] && !(RunLength(s) == 0 && EndMark(s[0]))
    ensures var step := if RunLength(s) > 0 then RunLength(s) else 1;
      && SentenceLength(s) == (if SentenceLength(s[step..]) == 0 then 0 else step + SentenceLength(s[step..]))
      && (RunLength(s) == 0 ==> !s[0].Dot?)
      && (!EndsInDot(s[step..]) && EndsInDot(s) ==> step == |s|)
  {
    hide RunLength;
  }

  lemma NoDots()
    ensures DotsUpTo([], 0)
  {
  }

  lemma OneCharacterDots(s: Text)
    requires s != []
    ensures DotsUpTo(s, 1)
  {
  }

  // The pieces of one sentence: only the last can end in a dot.

  /** No dot outside numbers is followed by a comma or a space. */
  predicate NoDotBeforeGap(us: seq<Unit>) {
    forall k | 0 <= k < |us| - 1 && us[k] == Plain(Dot) :: !Separator(us[k + 1])
  }

  /** In this piece every dot outside numbers is followed by something to say. */
  predicate DotInside(us: seq<Unit>) {
    forall k | 0 <= k < |us| && us[k] == Plain(Dot) :: k + 1 < |us| && !Separator(us[k + 1])
  }

  lemma {:induction false} UnitsNoDotBeforeGap(s: Text, base: nat)
    requires DotsInNumbers(s)
    ensures NoDotBeforeGap(Units(s, base))
    decreases |s|
  {
    if s != [] {
      hide RunLength;
      var r := RunLength(s);
      var step, base' := if r > 0 then r else 1, if r > 0 then base + 1 else base;
      var rest := s[step..];
      forall k | 0 <= k < |rest| - 1 && rest[k].Dot?
        ensures rest[k + 1].Digit?
      {
        assert rest[k] == s[step + k] && rest[k + 1] == s[step + k + 1];
      }
      UnitsNoDotBeforeGap(rest, base');
      assert Units(s, base)[1..] == Units(rest, base');
      if r == 0 && s[0].Dot? && |s| > 1 {
        assert s[1].Digit?;
        assert Units(rest, base')[0].Hole? || Units(rest, base')[0] == Plain(rest[0]);
      }
    }
  }

  lemma {:induction false} InnerPiecesDotInside(us: seq<Unit>)
    requires NoDotBeforeGap(us)
    ensures forall m | 0 <= m < |UnitSplit(us)| - 1 :: DotInside(UnitSplit(us)[m])
    decreases |us|
  {
    if us != [] {
      hide BreakLength, Spell;
      var n := BreakLength(Spell(us));
      if 0 < n <= |us| {
        assert NoDotBeforeGap(us[n..]);
        InnerPiecesDotInside(us[n..]);
      } else {
        assert NoDotBeforeGap(us[1..]);
        InnerPiecesDotInside(us[1..]);
        var later := UnitSplit(us[1..]);
        if |later| > 1 {
          FirstPieceStarts(us[1..]);
          assert DotInside([us[0]] + later[0]) by {
            var p := [us[0]] + later[0];
            forall k | 0 <= k < |p| && p[k] == Plain(Dot)
              ensures k + 1 < |p| && !Separator(p[k + 1])
            {
              if k > 0 {
                assert p[k] == later[0][k - 1];
              }
            }
          }
        }
      }
    }
  }

  /** The first of several pieces starts where the units do, unless they start with a break. */
  lemma FirstPieceStarts(us: seq<Unit>)
    requires |UnitSplit(us)| > 1
    ensures us != []
    ensures UnitSplit(us)[0] == [] ==> Separator(us[0])
    ensures UnitSplit(us)[0] != [] ==> UnitSplit(us)[0][0] == us[0]
  {
    var n := BreakLength(Spell(us));
    if 0 < n <= |us| {
      PlainPrefix(us, n);
    }
  }

  /** Runs end in a digit or a comma, so neither in a dot nor in a space. */
  predicate RunsSolid(runs: seq<Text>) {
    forall i | 0 <= i < |runs| :: runs[i] != [] && !runs[i][|runs[i]| - 1].Dot? && !runs[i][|runs[i]| - 1].Space?
  }

  lemma RunIsSolid(s: Text)
    requires RunLength(s) > 0
    ensures RunsSolid([s[..RunLength(s)]])
  {
    RunDots(s);
  }

  lemma ConsSolid(r: Text, runs: seq<Text>)
    requires RunsSolid([r]) && RunsSolid(runs)
    ensures RunsSolid([r] + runs)
  {
    assert [r][0] == r;
  }

  lemma {:induction false} RunsOfText(s: Text)
    ensures RunsSolid(Runs(s))
    decreases |s|
  {
    hide RunLength;
    if s == [] {
    } else if RunLength(s) > 0 {
      hide RunsSolid;
      RunIsSolid(s);
      RunsOfText(s[RunLength(s)..]);
      ConsSolid(s[..RunLength(s)], Runs(s[RunLength(s)..]));
    } else {
      hide RunsSolid;
      RunsOfText(s[1..]);
    }
  }

  lemma TrimRightLast(s: Text, c: Sym)
    ensures TrimRight(s + [c]) == if c.Space? then TrimRight(s) else s + [c]
  {
    assert (s + [c])[..|s|] == s;
  }

  /** What ends in a run does not end in a dot. */
  lemma EndsInRun(t: Text, runs: seq<Text>, i: nat)
    requires RunsSolid(runs) && i < |runs|
    ensures !EndsInDot(TrimRight(t + runs[i]))
  {
    var r := runs[i];
    var front, last := r[..|r| - 1], r[|r| - 1];
    assert r == front + [last];
    Regroup(t, front, [last]);
    TrimRightLast(t + front, last);
  }

  /** Without its last unit, if that is a space, the dots still have something to say behind them. */
  lemma DotInsideFront(front: seq<Unit>, c: Sym)
    requires DotInside(front + [Plain(c)]) && c.Space?
    ensures DotInside(front)
  {
    var us := front + [Plain(c)];
    forall k | 0 <= k < |front| && front[k] == Plain(Dot)
      ensures k + 1 < |front| && !Separator(front[k + 1])
    {
      assert us[k] == Plain(Dot) && !Separator(us[k + 1]);
    }
  }

  lemma LastIsNoDot(front: seq<Unit>, c: Sym)
    requires DotInside(front + [Plain(c)])
    ensures !c.Dot?
  {
    assert (front + [Plain(c)])[|front|] == Plain(c);
  }

  /** A filled piece whose dots are followed by something to say does not end in a dot. */
  lemma {:induction false} PieceEnds(us: seq<Unit>, runs: seq<Text>)
    requires DotInside(us) && RunsSolid(runs) && Masked(us, 0, |runs|)
    ensures !EndsInDot(TrimRight(Expand(us, runs)))
    decreases |us|
  {
    hide DotInside, RunsSolid, TrimRight, Masked;
    if us == [] {
      NothingEnds(runs);
    } else {
      hide Expand;
      var n := |us| - 1;
      var front, last := us[..n], us[n];
      assert us == front + [last] && us[n..] == [last];
      ExpandConcat(front, [last], runs);
      ExpandOne(last, runs);
      MaskedParts(us, n, 0, |runs|);
      match last {
        case Plain(c) =>
          LastIsNoDot(front, c);
          TrimRightLast(Expand(front, runs), c);
          if c.Space? {
            DotInsideFront(front, c);
            PieceEnds(front, runs);
          }
        case Hole(i) =>
          HoleInRange(i, |runs|);
          EndsInRun(Expand(front, runs), runs, i);
      }
    }
  }

  lemma NothingEnds(runs: seq<Text>)
    ensures !EndsInDot(TrimRight(Expand([], runs)))
  {
  }

  lemma HoleInRange(i: nat, hi: nat)
    requires Masked([Hole(i)], 0, hi)
    ensures i < hi
  {
  }

  /** Stripping and trimming on the right leave the same last character. */
  lemma StripEnds(t: Text)
    ensures Strip(t) != [] ==> TrimRight(t) != [] && Strip(t)[|Strip(t)| - 1] == TrimRight(t)[|TrimRight(t)| - 1]
  {
    hide SpanSpace, TrimRight;
    var n, a, b := SpanSpace(t), TrimRight(t), Strip(t);
    if b != [] {
      var last := n + |b| - 1;
      assert t[n..][|b| - 1] == t[last] && !t[last].Space?;
      forall k | last < k < |t| ensures t[k].Space? {
        assert t[k] == t[n..][k - n];
      }
      assert |a| == last + 1;
    }
  }

  lemma {:induction false} InnerClausesEnd(pieces: seq<seq<Unit>>, runs: seq<Text>)
    requires RunsSolid(runs) && AllMasked(pieces, |runs|)
    requires forall m | 0 <= m < |pieces| - 1 :: DotInside(pieces[m])
    ensures forall m | 0 <= m < |ExpandPieces(pieces, runs)| - 1 :: !EndsInDot(ExpandPieces(pieces, runs)[m])
  {
    if pieces != [] {
      hide Expand, Masked, Spell, DotInside, Strip, EndsInDot, RunsSolid, Blank;
      InnerClausesEnd(pieces[1..], runs);
      var later := ExpandPieces(pieces[1..], runs);
      if |pieces| > 1 {
        InnerClauseEnds(pieces[0], runs);
      } else {
        assert pieces[1..] == [];
      }
      var here := ExpandPieces(pieces, runs);
      if Blank(Spell(pieces[0])) {
        assert here == [] + later == later;
      }
    }
  }

  lemma InnerClauseEnds(piece: seq<Unit>, runs: seq<Text>)
    requires RunsSolid(runs) && Masked(piece, 0, |runs|) && DotInside(piece)
    ensures !EndsInDot(Strip(Expand(piece, runs)))
  {
    hide Expand, Masked, Strip, RunsSolid, DotInside;
    PieceEnds(piece, runs);
    StripEnds(Expand(piece, runs));
  }

  /** No clause but the last ends in a dot. */
  lemma InnerClausesOf(s: Text)
    requires NulFree(s) && DotsInNumbers(s)
    ensures forall m | 0 <= m < |Clauses(s)| - 1 :: !EndsInDot(Clauses(s)[m])
  {
    hide Units, Runs, UnitSplit, ExpandPieces, DotsUpTo;
    var us, runs := Units(s, 0), Runs(s);
    UnitsNoDotBeforeGap(s, 0);
    InnerPiecesDotInside(us);
    RunsOfText(s);
    UnitsAreMasked(s, 0);
    SplitMasked(us, 0, |runs|);
    InnerClausesEnd(UnitSplit(us), runs);
  }

  lemma InnerPiecesEnd(s: Text)
    requires NulFree(s) && DotsInNumbers(s)
    ensures forall m | 0 <= m < |FinalizeSentence(s)| - 1 :: !EndsInDot(FinalizeSentence(s)[m])
  {
    hide Clauses, SplitIntoClauses, Words, Strip;
    InnerClausesOf(s);
    SplitIntoClausesIsClauses(s);
  }

  // ... and the last does, if the sentence does.

  lemma StripEndsInDot(s: Text)
    requires EndsInDot(s)
    ensures EndsInDot(Strip(s))
  {
    var n := SpanSpace(s);
    assert s[n..][|s| - n - 1] == Dot;
    assert TrimRight(s[n..]) == s[n..];
  }

  lemma {:induction false} LastUnitIsDot(s: Text, base: nat)
    requires EndsInDot(s)
    ensures Units(s, base) != [] && Units(s, base)[|Units(s, base)| - 1] == Plain(Dot)
    decreases |s|
  {
    hide RunLength;
    var r := RunLength(s);
    if r > 0 {
      RunDots(s);
      LastUnitIsDot(s[r..], base + 1);
    } else if |s| > 1 {
      LastUnitIsDot(s[1..], base);
    } else {
      assert s[1..] == [];
    }
  }

  lemma LastOfPrepend(u: Unit, later: seq<seq<Unit>>)
    requires later != [] && later[|later| - 1] != []
    ensures var ps, p := [[u] + later[0]] + later[1..], later[|later| - 1];
      ps[|ps| - 1] != [] && ps[|ps| - 1][|ps[|ps| - 1]| - 1] == p[|p| - 1]
  {
  }

  lemma {:induction false} LastPieceEnds(us: seq<Unit>)
    requires us != [] && us[|us| - 1] == Plain(Dot)
    ensures var last := UnitSplit(us)[|UnitSplit(us)| - 1]; last != [] && last[|last| - 1] == Plain(Dot)
    decreases |us|
  {
    hide BreakLength, Spell, UnitSplit;
    UnitSplitStep(us);
    var n := BreakLength(Spell(us));
    if 0 < n <= |us| {
      PlainPrefix(us, n);
      assert n < |us|;
      LastPieceEnds(us[n..]);
    } else if |us| > 1 {
      LastPieceEnds(us[1..]);
      LastOfPrepend(us[0], UnitSplit(us[1..]));
    } else {
      NothingToSplit();
      assert us[1..] == [];
    }
  }

  lemma NothingToSplit()
    ensures UnitSplit([]) == [[]]
  {
  }

  lemma {:induction false} LastClauseEnds(pieces: seq<seq<Unit>>, runs: seq<Text>)
    requires pieces != []
    requires var last := pieces[|pieces| - 1]; last != [] && last[|last| - 1] == Plain(Dot)
    ensures var ps := ExpandPieces(pieces, runs); ps != [] && EndsInDot(ps[|ps| - 1])
  {
    if |pieces| > 1 {
      LastClauseEnds(pieces[1..], runs);
    } else {
      var p := pieces[0];
      var front := p[..|p| - 1];
      assert p == front + [Plain(Dot)] && pieces[1..] == [];
      ExpandConcat(front, [Plain(Dot)], runs);
      ExpandOne(Plain(Dot), runs);
      StripEndsInDot(Expand(p, runs));
      SpellEndsInDot(front);
    }
  }

  lemma {:induction false} SpellEndsInDot(front: seq<Unit>)
    ensures !Blank(Spell(front + [Plain(Dot)]))
  {
    if front == [] {
      assert front + [Plain(Dot)] == [Plain(Dot)];
      SpellOne(Plain(Dot));
    } else {
      assert (front + [Plain(Dot)])[1..] == front[1..] + [Plain(Dot)];
      assert front + [Plain(Dot)] == [front[0]] + (front[1..] + [Plain(Dot)]);
      SpellHead(front[0], front[1..] + [Plain(Dot)]);
      SpellEndsInDot(front[1..]);
      if Blank(Spell(front + [Plain(Dot)])) {
        BlankSuffix(Spell([front[0]]), Spell(front[1..] + [Plain(Dot)]));
      }
    }
  }

  lemma {:induction false} BlankSuffix(a: Text, b: Text)
    requires Blank(a + b)
    ensures Blank(b)
  {
    if a == [] {
      assert a + b == b;
    } else {
      assert (a + b)[1..] == a[1..] + b;
      BlankSuffix(a[1..], b);
    }
  }

  lemma LastPieceOf(s: Text)
    requires NulFree(s) && EndsInDot(s)
    ensures var ps := FinalizeSentence(s); ps != [] && EndsInDot(ps[|ps| - 1])
  {
    hide Units, Runs, UnitSplit, ExpandPieces, Words, Strip, SplitIntoClauses;
    StripEndsInDot(s);
    LastUnitIsDot(s, 0);
    LastPieceEnds(Units(s, 0));
    LastClauseEnds(UnitSplit(Units(s, 0)), Runs(s));
    SplitIntoClausesIsClauses(s);
  }

  // The words of a long first sentence

  lemma {:induction false} WordsDots(s: Text)
    requires DotsInNumbers(s)
    ensures forall i | 0 <= i < |Words(s)| ::
              Words(s)[i] != [] && DotsInNumbers(Words(s)[i]) && !Words(s)[i][|Words(s)[i]| - 1].Space?
    ensures forall i | 0 <= i < |Words(s)| - 1 :: !EndsInDot(Words(s)[i])
    decreases |s|
  {
    if s != [] {
      var n := SpanWord(s);
      var step := if s[0].Space? then 1 else n;
      var rest := s[step..];
      assert DotsInNumbers(rest) by {
        forall k | 0 <= k < |rest| - 1 && rest[k].Dot?
          ensures rest[k + 1].Digit?
        {
          assert rest[k] == s[step + k] && rest[k + 1] == s[step + k + 1];
        }
      }
      WordsDots(rest);
      if !s[0].Space? {
        assert DotsInNumbers(s[..n]) by {
          forall k | 0 <= k < n - 1 && s[..n][k].Dot?
            ensures s[..n][k + 1].Digit?
          {
            assert s[k].Dot? && s[k + 1].Digit?;
          }
        }
        if Words(rest) != [] {
          assert n < |s| && s[n].Space?;
          assert !s[n - 1].Dot?;
        }
      }
    }
  }

  predicate TidyWords(words: seq<Text>) {
    && (forall i | 0 <= i < |words| :: words[i] != [] && DotsInNumbers(words[i]) && !words[i][|words[i]| - 1].Space?)
    && (forall i | 0 <= i < |words| - 1 :: !EndsInDot(words[i]))
  }

  lemma {:induction false} JoinDots(words: seq<Text>)
    requires TidyWords(words)
    ensures DotsInNumbers(Join(words))
    ensures words != [] ==>
      Join(words) != [] && Join(words)[|Join(words)| - 1] == words[|words| - 1][|words[|words| - 1]| - 1]
  {
    if |words| > 1 {
      JoinDots(words[1..]);
      DotsAroundBlank(words[0], Join(words[1..]));
    }
  }

  lemma DotsAroundBlank(a: Text, b: Text)
    requires DotsInNumbers(a) && !EndsInDot(a) && DotsInNumbers(b)
    ensures DotsInNumbers(a + [BLANK] + b)
  {
    var s := a + [BLANK] + b;
    forall k | 0 <= k < |s| - 1 && s[k].Dot?
      ensures s[k + 1].Digit?
    {
      if k < |a| {
        assert s[k] == a[k];
        if k + 1 < |a| {
          assert s[k + 1] == a[k + 1];
        }
      } else {
        assert s[k] == b[k - |a| - 1] && s[k + 1] == b[k - |a|];
      }
    }
  }

  // ---------------------------------------------------------------------------
  // The chunks of one sentence

  lemma HeadDoesNotEndInDot(words: seq<Text>)
    requires TidyWords(words) && words != [] && !EndsInDot(words[|words| - 1])
    ensures !EndsInDot(Strip(Join(words)))
  {
    JoinDots(words);
    StripEnds(Join(words));
    assert TrimRight(Join(words)) == Join(words);
  }

  /** No chunk of a sentence but its last ends in a dot. */
  lemma InnerChunksEnd(s: Text, first: bool)
    requires NulFree(s) && DotsInNumbers(s)
    ensures forall m | 0 <= m < |Emit(s, first)| - 1 :: !EndsInDot(Emit(s, first)[m])
  {
    hide FinalizeSentence, Strip, Join, Words, DotsUpTo;
    if !first && |Words(s)| > FIRST_CHUNK_MAX_WORDS {
      WordsDots(s);
      WordsNulFree(s);
      var lead, later := Words(s)[..FIRST_CHUNK_MAX_WORDS], Words(s)[FIRST_CHUNK_MAX_WORDS..];
      HeadDoesNotEndInDot(lead);
      JoinDots(later);
      JoinNulFree(later);
      InnerPiecesEnd(Join(later));
    } else {
      InnerPiecesEnd(s);
    }
  }

  lemma {:induction false} LastWordEnds(s: Text)
    requires EndsInDot(s)
    ensures Words(s) != [] && EndsInDot(Words(s)[|Words(s)| - 1])
    decreases |s|
  {
    var n := if s[0].Space? then 1 else SpanWord(s);
    FirstWord(s);
    hide Words;
    if n < |s| {
      EndsInDotLater(s, n);
      LastWordEnds(s[n..]);
    } else {
      OnlyWordEnds(s);
    }
  }

  lemma FirstWord(s: Text)
    requires s != []
    ensures s[0].Space? ==> Words(s) == Words(s[1..])
    ensures !s[0].Space? ==> SpanWord(s) > 0 && Words(s) == [s[..SpanWord(s)]] + Words(s[SpanWord(s)..])
  {
  }

  lemma EndsInDotLater(s: Text, n: nat)
    requires n < |s|
    ensures EndsInDot(s) <==> EndsInDot(s[n..])
  {
  }

  lemma OnlyWordEnds(s: Text)
    requires EndsInDot(s) && (s[0].Space? ==> |s| == 1) && (!s[0].Space? ==> SpanWord(s) == |s|)
    ensures Words(s) != [] && EndsInDot(Words(s)[|Words(s)| - 1])
  {
    assert s[..|s|] == s && s[|s|..] == [];
    assert Words([]) == [];
  }

  lemma LastChunkEnds(s: Text, first: bool)
    requires NulFree(s) && EndsInDot(s) && DotsInNumbers(s)
    ensures Emit(s, first) != [] && EndsInDot(Emit(s, first)[|Emit(s, first)| - 1])
  {
    hide FinalizeSentence, Strip, Join, Words, DotsUpTo;
    if !first && |Words(s)| > FIRST_CHUNK_MAX_WORDS {
      var later := Words(s)[FIRST_CHUNK_MAX_WORDS..];
      WordsDots(s);
      WordsNulFree(s);
      LastWordEnds(s);
      JoinDots(later);
      JoinNulFree(later);
      LastPieceOf(Join(later));
    } else {
      LastPieceOf(s);
    }
  }

  // ---------------------------------------------------------------------------
  // A cut-off decimal point shows in the chunks

  /**
   Whole chunks `a`, the last ending in a dot, are no beginning of chunks `b` of longer
   text whose inner ones do not.
   */
  lemma ChunksDiffer(a: seq<Text>, b: seq<Text>, more: seq<Text>)
    requires a != [] && EndsInDot(a[|a| - 1])
    requires forall m | 0 <= m < |b| - 1 :: !EndsInDot(b[m])
    requires |Squeeze(Concat(a))| < |Squeeze(Concat(b))|
    ensures !(a <= b + more)
  {
    hide Squeeze, Concat, EndsInDot;
    if a <= b + more {
      if |a| <= |b| {
        PrefixOfPrefix(a, b, more);
      } else {
        LongerPrefixHasMore(a, b, more);
      }
    }
  }

  lemma PrefixOfPrefix(a: seq<Text>, b: seq<Text>, more: seq<Text>)
    requires a <= b + more && |a| <= |b|
    ensures a <= b && (|a| == |b| ==> a == b)
  {
    assert a == (b + more)[..|a|] == b[..|a|];
    assert b[..|b|] == b;
  }

  lemma LongerPrefixHasMore(a: seq<Text>, b: seq<Text>, more: seq<Text>)
    requires a <= b + more && |a| > |b|
    ensures |Squeeze(Concat(a))| >= |Squeeze(Concat(b))|
  {
    hide Squeeze, Concat;
    assert a[..|b|] == (b + more)[..|b|] == b;
    assert a == b + a[|b|..];
    ConcatConcat(b, a[|b|..]);
    SqueezeConcat(Concat(b), Concat(a[|b|..]));
  }

  lemma SqueezeLonger(a: Text, b: Text)
    requires b != [] && b[0].Digit?
    ensures |Squeeze(a)| < |Squeeze(a + b)|
  {
    SqueezeConcat(a, b);
  }

  lemma {:induction false} DrainGrows(st: Stream)
    ensures st.chunks <= Drain(st).chunks
    decreases |st.buffer|
  {
    hide SentenceLength, Emit;
    var n := SentenceLength(st.buffer);
    if n > 0 {
      DrainGrows(Stream(st.buffer[n..], true, st.chunks + Emit(st.buffer[..n], st.firstEmitted)));
    }
  }

  lemma {:induction false} FeedAllGrows(st: Stream, deltas: seq<Text>)
    ensures st.chunks <= FeedAll(st, deltas).chunks
    decreases |deltas|
  {
    if deltas != [] {
      DrainGrows(st.(buffer := st.buffer + deltas[0]));
      FeedAllGrows(Feed(st, deltas[0]), deltas[1..]);
    }
  }

  lemma CutBeyondHead(s: Text, q: Text)
    requires EndsInNumberDot(s) && !CutAtHead(s)
    ensures s != [] && HeadLength(s) < |s| && EndsInNumberDot(s[HeadLength(s)..])
    ensures RunLength(s + q) == RunLength(s)
  {
    hide RunLength;
    EmptyEndsInNothing();
    if RunLength(s) > 0 {
      RunStable(s, q);
    } else {
      NoRunStable(s, q);
    }
  }

  /** What holds beyond the head holds of the text. */
  lemma SentenceBeyondHead(s: Text, q: Text)
    requires s != [] && HeadLength(s) < |s| && RunLength(s + q) == RunLength(s)
    requires var rest := s[HeadLength(s)..];
      && SentenceLength(rest) > 0
      && (SentenceLength(rest) == |rest| ==> SentenceLength(rest + q) == 0 || SentenceLength(rest + q) > |rest|)
    ensures SentenceLength(s) > 0
    ensures SentenceLength(s) == |s| ==> SentenceLength(s + q) == 0 || SentenceLength(s + q) > |s|
  {
    hide RunLength;
    if !(RunLength(s) == 0 && EndMark(s[0])) {
      assert (s + q)[HeadLength(s)..] == s[HeadLength(s)..] + q;
      SentenceStep(s);
      SentenceStep(s + q);
      hide SentenceLength;
    }
  }

  /** A text that ends in a cut-off decimal point has a sentence, which the rest of the number would carry on. */
  lemma {:induction false} CutNumberGoesOn(s: Text, q: Text)
    requires EndsInNumberDot(s) && q != [] && q[0].Digit?
    ensures SentenceLength(s) > 0
    ensures SentenceLength(s) == |s| ==> SentenceLength(s + q) == 0 || SentenceLength(s + q) > |s|
    ensures EndsInDot(s)
    decreases |s|
  {
    hide EndsInNumberDot, CutAtHead, HeadLength, RunLength, SentenceLength, EndsInDot;
    if CutAtHead(s) {
      AbsorbsDot(s, q);
      EndsAtCut(s);
    } else {
      CutBeyondHead(s, q);
      CutNumberGoesOn(s[HeadLength(s)..], q);
      SentenceBeyondHead(s, q);
      EndsInDotLater(s, HeadLength(s));
    }
  }

  lemma EndsAtCut(s: Text)
    requires CutAtHead(s)
    ensures EndsInDot(s)
  {
    assert s == s[..RunLength(s)] + [Dot];
  }

  lemma AbsorbsDot(s: Text, q: Text)
    requires CutAtHead(s) && q != [] && q[0].Digit?
    ensures SentenceLength(s) == |s|
    ensures RunLength(s + q) > |s|
    ensures SentenceLength(s + q) == 0 || SentenceLength(s + q) > |s|
  {
    var r := RunLength(s);
    assert RunLength([Dot]) == 0 && SentenceLength([Dot]) == 1;
    BodyStable(s, q);
    RunFromBody(s);
    RunFromBody(s + q);
    var body := BodyLength(s);
    assert forall k | 0 <= k < r :: s[k] in s[..r];
    assert (s + q)[body + 1] == q[0];
  }

  /** The whole has no more sentence: the prefix's last sentence is the start of its remainder. */
  lemma RemainderDiverges(s: Text, first: bool, chunks: seq<Text>, q: Text)
    requires NulFree(s + q) && q != [] && q[0].Digit?
    requires EndsInDot(s) && DotsInNumbers(s) && DotsInNumbers(s + q)
    ensures Strip(s + q) != [] && !(chunks + Emit(s, first) <= chunks + FinalizeSentence(Strip(s + q)))
  {
    hide Squeeze, Emit, FinalizeSentence, Strip, DotsUpTo;
    var t := Strip(s + q);
    NulFreeParts(s, q);
    EmitKeeps(s, first);
    LastChunkEnds(s, first);
    StripKeeps(s + q);
    SqueezeLonger(s, q);
    StripDots(s + q);
    StripNulFree(s + q);
    InnerPiecesEnd(t);
    FinalizeKeeps(t);
    SqueezeBlank([]);
    PrefixesDiffer(chunks, Emit(s, first), FinalizeSentence(t), []);
    assert chunks + FinalizeSentence(t) + [] == chunks + FinalizeSentence(t);
  }

  /** The whole has a longer sentence, of which the prefix's last sentence is only the start. */
  lemma SentenceDiverges(s: Text, first: bool, chunks: seq<Text>, more: Text, later: seq<Text>)
    requires NulFree(s + more) && more != [] && more[0].Digit?
    requires EndsInDot(s) && DotsInNumbers(s) && DotsInNumbers(s + more)
    ensures !(chunks + Emit(s, first) <= chunks + Emit(s + more, first) + later)
  {
    hide Squeeze, Emit, DotsUpTo;
    NulFreeParts(s, more);
    EmitKeeps(s, first);
    LastChunkEnds(s, first);
    InnerChunksEnd(s + more, first);
    EmitKeeps(s + more, first);
    SqueezeLonger(s, more);
    PrefixesDiffer(chunks, Emit(s, first), Emit(s + more, first), later);
  }

  lemma DotsOfPrefix(s: Text, n: nat)
    requires n <= |s| && DotsUpTo(s, n)
    ensures DotsInNumbers(s[..n])
  {
  }

  lemma DrainOne(st: Stream)
    requires SentenceLength(st.buffer) > 0
    ensures var n := SentenceLength(st.buffer);
      && Drain(st) == Drain(Stream(st.buffer[n..], true, st.chunks + Emit(st.buffer[..n], st.firstEmitted)))
      && st.chunks + Emit(st.buffer[..n], st.firstEmitted) <= Flush(Drain(st))
  {
    var n := SentenceLength(st.buffer);
    DrainGrows(Stream(st.buffer[n..], true, st.chunks + Emit(st.buffer[..n], st.firstEmitted)));
  }

  lemma LongerSentenceDiverges(s: Text, first: bool, chunks: seq<Text>, q: Text)
    requires NulFree(s + q) && q != [] && q[0].Digit?
    requires EndsInDot(s) && DotsInNumbers(s)
    requires SentenceLength(s + q) > |s| && DotsUpTo(s + q, SentenceLength(s + q))
    ensures !(chunks + Emit(s, first) <= Flush(Drain(Stream(s + q, first, chunks))))
  {
    hide SentenceLength, DotsUpTo, Drain, Emit, Flush, EndsInDot;
    var all, n := s + q, SentenceLength(s + q);
    var more := q[..n - |s|];
    DotsOfPrefix(all, n);
    DrainOne(Stream(all, first, chunks));
    LongerPrefix(s, q, n);
    var out := Flush(Drain(Stream(all, first, chunks)));
    var start := chunks + Emit(s + more, first);
    assert out == start + out[|start|..];
    SentenceDiverges(s, first, chunks, more, out[|start|..]);
  }

  lemma LongerPrefix(s: Text, q: Text, n: nat)
    requires |s| < n <= |s + q| && NulFree(s + q)
    ensures (s + q)[..n] == s + q[..n - |s|] && NulFree(s + q[..n - |s|]) && q[..n - |s|] != []
      && q[..n - |s|][0] == q[0]
  {
    hide NulFree;
    var more := q[..n - |s|];
    assert s + q == (s + more) + (s + q)[n..];
    NulFreeParts(s + more, (s + q)[n..]);
  }

  /** The last sentence of the prefix is cut short: what it emits is no beginning of what the whole emits. */
  lemma LastSentenceDiverges(s: Text, first: bool, chunks: seq<Text>, q: Text)
    requires NulFree(s + q) && q != [] && q[0].Digit?
    requires EndsInNumberDot(s) && SentenceLength(s) == |s|
    ensures !(chunks + Emit(s, first) <= Flush(Drain(Stream(s + q, first, chunks))))
  {
    hide SentenceLength, EndsInNumberDot, DotsUpTo, Drain, Emit, FinalizeSentence, Strip;
    CutNumberGoesOn(s, q);
    SentenceDots(s);
    SentenceDots(s + q);
    if SentenceLength(s + q) == 0 {
      DrainDrained(Stream(s + q, first, chunks));
      RemainderDiverges(s, first, chunks, q);
    } else {
      hide Flush;
      LongerSentenceDiverges(s, first, chunks, q);
    }
  }

  lemma PrefixesDiffer(chunks: seq<Text>, a: seq<Text>, b: seq<Text>, more: seq<Text>)
    requires a != [] && EndsInDot(a[|a| - 1])
    requires forall m | 0 <= m < |b| - 1 :: !EndsInDot(b[m])
    requires |Squeeze(Concat(a))| < |Squeeze(Concat(b))|
    ensures !(chunks + a <= chunks + b + more)
  {
    hide Squeeze, Concat;
    ChunksDiffer(a, b, more);
    if chunks + a <= chunks + b + more {
      WithoutChunks(chunks, a, b, more);
    }
  }

  lemma WithoutChunks(chunks: seq<Text>, a: seq<Text>, b: seq<Text>, more: seq<Text>)
    requires chunks + a <= chunks + b + more
    ensures a <= b + more
  {
    assert (chunks + a)[|chunks|..] == a;
    assert (chunks + b + more)[|chunks|..] == b + more;
    assert chunks + a == (chunks + b + more)[..|chunks + a|];
    assert a == (b + more)[..|a|];
  }

  lemma StripDots(s: Text)
    requires DotsInNumbers(s)
    ensures DotsInNumbers(Strip(s))
  {
    var n, t := SpanSpace(s), Strip(s);
    forall k | 0 <= k < |t| - 1 && t[k].Dot?
      ensures t[k + 1].Digit?
    {
      assert t[k] == s[n..][k] == s[n + k] && t[k + 1] == s[n..][k + 1] == s[n + k + 1];
    }
  }

  lemma {:induction false} CutDiverges(s: Text, first: bool, chunks: seq<Text>, q: Text)
    requires NulFree(s + q) && SplitsDecimal(s, q)
    ensures !(Drain(Stream(s, first, chunks)).chunks <= Flush(Drain(Stream(s + q, first, chunks))))
    decreases |s|
  {
    hide SentenceLength, Emit, EndsInNumberDot, Flush;
    var n := SentenceLength(s);
    CutNumberGoesOn(s, q);
    if n == |s| {
      LastSentenceDiverges(s, first, chunks, q);
      assert s[..n] == s && s[n..] == [];
      assert SentenceLength([]) == 0;
      DrainDrained(Stream([], true, chunks + Emit(s, first)));
    } else {
      SentenceStable(s, q);
      NumberDotAfterSentence(s);
      assert (s + q)[..n] == s[..n] && (s + q)[n..] == s[n..] + q;
      assert s + q == s[..n] + (s[n..] + q);
      NulFreeParts(s[..n], s[n..] + q);
      CutDiverges(s[n..], true, chunks + Emit(s[..n], first), q);
    }
  }

  // ---------------------------------------------------------------------------
  // The theorem

  /** Cut number `i` falls right after the decimal point of a number. */
  predicate BadCut(deltas: seq<Text>, i: nat)
    requires i <= |deltas|
  {
    SplitsDecimal(Concat(deltas[..i]), Concat(deltas[i..]))
  }

  lemma GoodCutsGiveWholeText(deltas: seq<Text>)
    requires forall i | 0 <= i <= |deltas| :: !BadCut(deltas, i)
    ensures Chunks(deltas) == Chunks([Concat(deltas)])
  {
    hide Drain, Flush;
    GoodCutsAreInvisibleFromStart(deltas);
    OneDelta(Concat(deltas));
  }

  lemma OneDelta(text: Text)
    ensures FeedAll(INITIAL_STREAM, [text]) == Feed(INITIAL_STREAM, text)
  {
    assert [text][1..] == [];
  }

  lemma PrefixCutsGood(deltas: seq<Text>, i: nat, j: nat)
    requires j <= i <= |deltas| && (j < i ==> !BadCut(deltas, j))
    ensures !BadCut(deltas[..i], j)
  {
    var before := deltas[..i];
    if j < i {
      assert before[..j] == deltas[..j] && deltas[j..] == before[j..] + deltas[i..];
      ConcatConcat(before[j..], deltas[i..]);
    } else {
      assert before[j..] == [];
    }
  }

  /** The first bad cut tells. */
  lemma FirstBadCutTells(deltas: seq<Text>, i: nat)
    requires NulFree(Concat(deltas)) && i <= |deltas| && BadCut(deltas, i)
    requires forall j | 0 <= j < i :: !BadCut(deltas, j)
    ensures Chunks(deltas) != Chunks([Concat(deltas)])
  {
    hide SplitsDecimal, Drain, Flush, FeedAll, NulFree, Feed;
    var before, s, q := deltas[..i], Concat(deltas[..i]), Concat(deltas[i..]);
    assert deltas == before + deltas[i..];
    ConcatConcat(before, deltas[i..]);
    forall j | 0 <= j <= i
      ensures !BadCut(before, j)
    {
      PrefixCutsGood(deltas, i, j);
    }
    GoodCutsAreInvisibleFromStart(before);
    FeedAllSplits(INITIAL_STREAM, before, deltas[i..]);
    OneDelta(s + q);
    FedPrefixTells(s, q, deltas[i..]);
  }

  lemma FedPrefixTells(s: Text, q: Text, rest: seq<Text>)
    requires NulFree(s + q) && SplitsDecimal(s, q)
    ensures Flush(FeedAll(Feed(INITIAL_STREAM, s), rest)) != Flush(Feed(INITIAL_STREAM, s + q))
  {
    hide SplitsDecimal, Drain;
    CutDiverges(s, false, [], q);
    assert [] + s == s && [] + (s + q) == s + q;
    var st := Feed(INITIAL_STREAM, s);
    FeedAllGrows(st, rest);
    assert FeedAll(st, rest).chunks <= Flush(FeedAll(st, rest));
  }

  lemma GoodCutsAreInvisibleFromStart(deltas: seq<Text>)
    requires forall i | 0 <= i <= |deltas| :: !BadCut(deltas, i)
    ensures FeedAll(INITIAL_STREAM, deltas) == Feed(INITIAL_STREAM, Concat(deltas))
  {
    hide SplitsDecimal, Drain;
    forall i | 0 <= i <= |deltas|
      ensures !SplitsDecimal([] + Concat(deltas[..i]), Concat(deltas[i..]))
    {
      assert !BadCut(deltas, i);
      assert [] + Concat(deltas[..i]) == Concat(deltas[..i]);
    }
    GoodCutsAreInvisible(INITIAL_STREAM, deltas);
  }

  lemma {:induction false} FeedAllSplits(st: Stream, a: seq<Text>, b: seq<Text>)
    ensures FeedAll(st, a + b) == FeedAll(FeedAll(st, a), b)
    decreases |a|
  {
    hide Drain;
    if a == [] {
      assert a + b == b;
    } else {
      assert (a + b)[1..] == a[1..] + b;
      FeedAllSplits(Feed(st, a[0]), a[1..], b);
    }
  }

  lemma {:induction false} LeastBadCut(deltas: seq<Text>, i: nat) returns (least: nat)
    requires i <= |deltas| && BadCut(deltas, i)
    ensures least <= |deltas| && BadCut(deltas, least) && forall j | 0 <= j < least :: !BadCut(deltas, j)
    decreases i
  {
    hide SplitsDecimal;
    if j: nat :| j < i && BadCut(deltas, j) {
      least := LeastBadCut(deltas, j);
    } else {
      least := i;
    }
  }

  /**
   The chunks of a NUL-free reply are those of the whole reply given as one
   delta if and only if no cut falls right after the decimal point of a number.
   */
  lemma CutsMatterOnlyInDecimals(deltas: seq<Text>)
    requires NulFree(Concat(deltas))
    ensures Chunks(deltas) == Chunks([Concat(deltas)]) <==> forall i | 0 <= i <= |deltas| :: !BadCut(deltas, i)
  {
    if forall i | 0 <= i <= |deltas| :: !BadCut(deltas, i) {
      GoodCutsGiveWholeText(deltas);
    } else {
      var i: nat :| i <= |deltas| && BadCut(deltas, i);
      var least := LeastBadCut(deltas, i);
      FirstBadCutTells(deltas, least);
    }
  }

  /** And such a cut does change the chunks: "3.1" is one chunk, cut after the point it is "3." and "1". */
  lemma CutDecimalChangesChunks()
    ensures var three, point, one := Digit(51), Dot, Digit(49);
      && BadCut([[three, point], [one]], 1)
      && Concat([[three, point], [one]]) == [three, point, one]
      && Chunks([[three, point], [one]]) != Chunks([[three, point, one]])
  {
    var deltas: seq<Text> := [[Digit(51), Dot], [Digit(49)]];
    assert deltas[..1] == [deltas[0]] && deltas[1..] == [deltas[1]];
    ConcatTwo(deltas[0], deltas[1]);
    assert deltas[0] + deltas[1] == [Digit(51), Dot, Digit(49)];
    ThreePointEnds(deltas[0]);
    hide SplitsDecimal, Chunks;
    assert SplitsDecimal(deltas[0], deltas[1]) by { CutIsBad(deltas[0], deltas[1]); }
    CutsMatterOnlyInDecimals(deltas);
  }

  lemma ConcatTwo(a: Text, b: Text)
    ensures Concat([a]) == a && Concat([b]) == b && Concat([a, b]) == a + b
  {
    assert [a][1..] == [] && [b][1..] == [] && [a, b][1..] == [b];
  }

  lemma ThreePointEnds(s: Text)
    requires s == [Digit(51), Dot]
    ensures EndsInNumberDot(s)
  {
    assert s[1..] == [Dot];
    assert SpanDigitsCommas([Dot]) == 0;
    assert RunLength(s) == 1;
  }

  lemma CutIsBad(s: Text, q: Text)
    requires EndsInNumberDot(s) && q != [] && q[0].Digit?
    ensures SplitsDecimal(s, q)
  {
  }
}
