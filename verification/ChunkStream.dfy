/**
 `chunk_stream` (speech/chunker.py): the loop over deltas, with its masking and
 unmasking loops, proved to emit `Chunks`; module ChunkTheorems says what `Chunks`
 guarantees over every way of cutting a reply.
 */
module ChunkStream {
  import opened Text
  import opened Chunker

  // ---------------------------------------------------------------------------
  // Masking and unmasking, as the code's loops

  /** _mask_number_runs: one pass over the text, appending each run it replaces. */
  method MaskNumberRuns(text: Text) returns (masked: Text, runs: seq<Text>)
    ensures masked == Spell(Units(text, 0)) && runs == Runs(text)
  {
    hide Placeholder, RunLength, Units, Runs, Spell;
    masked, runs := [], [];
    var rest := text;
    NothingLeft();
    assert [] + Spell(Units(text, 0)) == Spell(Units(text, 0));
    while rest != []
      invariant masked + Spell(Units(rest, |runs|)) == Spell(Units(text, 0))
      invariant runs + Runs(rest) == Runs(text)
      decreases |rest|
    {
      var n := RunLength(rest);
      NextUnit(rest, |runs|);
      if n > 0 {
        Regroup(masked, Placeholder(|runs|), Spell(Units(rest[n..], |runs| + 1)));
        assert runs + ([rest[..n]] + Runs(rest[n..])) == runs + [rest[..n]] + Runs(rest[n..]);
        masked, runs, rest := masked + Placeholder(|runs|), runs + [rest[..n]], rest[n..];
      } else {
        Regroup(masked, [rest[0]], Spell(Units(rest[1..], |runs|)));
        masked, rest := masked + [rest[0]], rest[1..];
      }
      NothingLeft();
    }
  }

  lemma NothingLeft()
    ensures forall base :: Spell(Units([], base)) == []
    ensures Runs([]) == []
  {
  }

  lemma NextUnit(s: Text, base: nat)
    requires s != []
    ensures var n := RunLength(s);
      if n > 0 then
        Spell(Units(s, base)) == Placeholder(base) + Spell(Units(s[n..], base + 1))
          && Runs(s) == [s[..n]] + Runs(s[n..])
      else
        Spell(Units(s, base)) == [s[0]] + Spell(Units(s[1..], base)) && Runs(s) == Runs(s[1..])
  {
    hide Placeholder, RunLength;
    var n := RunLength(s);
    if n > 0 {
      SpellHead(Hole(base), Units(s[n..], base + 1));
      SpellOne(Hole(base));
    } else {
      SpellHead(Plain(s[0]), Units(s[1..], base));
      SpellOne(Plain(s[0]));
    }
  }

  /** _unmask_number_runs: one str.replace per run. */
  method UnmaskNumberRuns(text: Text, runs: seq<Text>) returns (t: Text)
    ensures t == UnmaskFrom(text, runs, 0)
  {
    t := text;
    for i := 0 to |runs|
      invariant UnmaskFrom(t, runs, i) == UnmaskFrom(text, runs, 0)
    {
      t := Replace(t, Placeholder(i), runs[i]);
    }
  }

  // ---------------------------------------------------------------------------
  // The stream as a function of the deltas

  /** What chunk_stream holds between deltas, and what it has yielded. */
  datatype Stream = Stream(buffer: Text, firstEmitted: bool, chunks: seq<Text>)

  const INITIAL_STREAM := Stream([], false, [])

  /** The chunks of one complete sentence; a long first sentence gives a short lead-in first. */
  function Emit(sentence: Text, firstEmitted: bool): seq<Text> {
    if !firstEmitted && |Words(sentence)| > FIRST_CHUNK_MAX_WORDS then
      [Strip(Join(Words(sentence)[..FIRST_CHUNK_MAX_WORDS]))]
        + FinalizeSentence(Join(Words(sentence)[FIRST_CHUNK_MAX_WORDS..]))
    else
      FinalizeSentence(sentence)
  }

  /** Emits every complete sentence of the buffer. */
  function Drain(st: Stream): Stream
    decreases |st.buffer|
  {
    var n := SentenceLength(st.buffer);
    if n == 0 then st
    else Drain(Stream(st.buffer[n..], true, st.chunks + Emit(st.buffer[..n], st.firstEmitted)))
  }

  function Feed(st: Stream, delta: Text): Stream {
    Drain(st.(buffer := st.buffer + delta))
  }

  function FeedAll(st: Stream, deltas: seq<Text>): Stream
    decreases |deltas|
  {
    if deltas == [] then st else FeedAll(Feed(st, deltas[0]), deltas[1..])
  }

  function Flush(st: Stream): seq<Text> {
    if Strip(st.buffer) == [] then st.chunks else st.chunks + FinalizeSentence(Strip(st.buffer))
  }

  /** Everything chunk_stream yields for these deltas. */
  function Chunks(deltas: seq<Text>): seq<Text> {
    Flush(FeedAll(INITIAL_STREAM, deltas))
  }

  /**
   One turn of the inner loop: mask the buffer, look for an end mark, unmask both
   halves. On NUL-free text these are the two parts of the buffer itself.
   */
  method TakeSentence(buffer: Text) returns (found: bool, sentence: Text, rest: Text)
    ensures var masked := Spell(Units(buffer, 0)); var n := FirstEnd(masked);
      && (found <==> n > 0)
      && (found ==> sentence == UnmaskFrom(masked[..n], Runs(buffer), 0))
      && (found ==> rest == UnmaskFrom(masked[n..], Runs(buffer), 0))
    ensures NulFree(buffer) ==>
      && (found <==> SentenceLength(buffer) > 0)
      && (found ==> sentence == buffer[..SentenceLength(buffer)] && rest == buffer[SentenceLength(buffer)..])
      && (found ==> |rest| < |buffer| && NulFree(rest))
  {
    var masked, runs := MaskNumberRuns(buffer);
    var splitAt := FirstEnd(masked);
    found, sentence, rest := splitAt > 0, [], buffer;
    hide Units, Runs, Spell, FirstEnd, UnmaskFrom;
    if NulFree(buffer) {
      MaskedCut(buffer);
    }
    if found {
      sentence := UnmaskNumberRuns(masked[..splitAt], runs);
      rest := UnmaskNumberRuns(masked[splitAt..], runs);
    }
  }

  /** chunk_stream; when the deltas end in an exception, the remainder is not flushed. */
  method ChunkStream(deltas: seq<Text>, fails: bool) returns (chunks: seq<Text>)
    requires NulFree(Concat(deltas))
    ensures chunks == if fails then FeedAll(INITIAL_STREAM, deltas).chunks else Chunks(deltas)
  {
    hide SentenceLength, FinalizeSentence, Words, Join, Strip;
    var buffer: Text, firstChunkEmitted := [], false;
    chunks := [];
    for i := 0 to |deltas|
      invariant NulFree(buffer) && NulFree(Concat(deltas[i..]))
      invariant FeedAll(Stream(buffer, firstChunkEmitted, chunks), deltas[i..]) == FeedAll(INITIAL_STREAM, deltas)
    {
      ghost var start := Stream(buffer, firstChunkEmitted, chunks);
      assert deltas[i..][1..] == deltas[i + 1..];
      NulFreeParts(deltas[i], Concat(deltas[i + 1..]));
      NulFreeParts(buffer, deltas[i]);
      buffer := buffer + deltas[i];
      while true
        invariant NulFree(buffer)
        invariant Drain(Stream(buffer, firstChunkEmitted, chunks)) == Feed(start, deltas[i])
        decreases |buffer|
      {
        var found, sentence, rest := TakeSentence(buffer);
        if !found {
          break;
        }
        ghost var before, first := chunks, firstChunkEmitted;
        buffer := rest;
        if !firstChunkEmitted {
          firstChunkEmitted := true;
          var words := Words(sentence);
          if |words| > FIRST_CHUNK_MAX_WORDS {
            var head, tail := Join(words[..FIRST_CHUNK_MAX_WORDS]), Join(words[FIRST_CHUNK_MAX_WORDS..]);
            chunks := chunks + [Strip(head)];
            chunks := chunks + FinalizeSentence(tail);
            assert chunks == before + Emit(sentence, first);
            continue;
          }
        }
        chunks := chunks + FinalizeSentence(sentence);
        assert chunks == before + Emit(sentence, first);
      }
    }
    assert deltas[|deltas|..] == [];
    if fails {
      return;
    }
    var remainder := Strip(buffer);
    if remainder != [] {
      chunks := chunks + FinalizeSentence(remainder);
    }
  }

  lemma NulFreeParts(a: Text, b: Text)
    ensures NulFree(a + b) <==> NulFree(a) && NulFree(b)
  {
    if NulFree(a + b) {
      assert forall k | 0 <= k < |a| :: (a + b)[k] == a[k];
      assert forall k | 0 <= k < |b| :: (a + b)[|a| + k] == b[k];
    }
  }
}
