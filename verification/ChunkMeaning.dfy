/**
 What a chunk is, said of the characters of a reply alone: which of them belong to a number, which end a sentence,
 where a clause may break, what a word is; and that the chunks of every stream are those.
 */
module ChunkMeaning {
  import opened Text
  import opened Chunker
  import opened ChunkStream
  import opened ChunkTheorems

  // ---------------------------------------------------------------------------
  // Numbers

  /** A sign or none up to i, then a digit and digits and commas up to j, then nothing, or a point and digits. */
  predicate NumberParts(s: Text, i: nat, j: nat) {
    && i <= 1 && i < j <= |s|
    && (i == 1 ==> s[0].Currency?)
    && s[i].Digit? && (forall k | i <= k < j :: s[k].Digit? || s[k].Comma?)
    && (j < |s| ==> s[j].Dot? && j + 1 < |s| && forall k | j < k < |s| :: s[k].Digit?)
  }

  ghost predicate IsNumber(s: Text) {
    exists i: nat, j: nat :: NumberParts(s, i, j)
  }

  /** Length of the longest number among the first n characters, 0 if none of them starts one. */
  ghost function LongestNumber(s: Text, n: nat): (m: nat)
    requires n <= |s|
    ensures m <= n
  {
    if n == 0 then 0 else if IsNumber(s[..n]) then n else LongestNumber(s, n - 1)
  }

  /** Position k lies in a number, where numbers are found from the left, each as long as it can be. */
  ghost predicate InNumber(s: Text, k: nat)
    decreases |s|
  {
    k < |s| &&
    var n := LongestNumber(s, |s|);
    if n > 0 then k < n || InNumber(s[n..], k - n) else k > 0 && InNumber(s[1..], k - 1)
  }

  /** The parts of the run at the head: sign, digits and commas up to `body`, and the digits after a point. */
  lemma RunParts(s: Text) returns (sign: nat, body: nat)
    requires RunLength(s) > 0
    ensures sign == SignLength(s) && sign < body <= RunLength(s) && s[sign].Digit?
    ensures forall k | sign <= k < body :: s[k].Digit? || s[k].Comma?
    ensures body < |s| ==> !s[body].Digit? && !s[body].Comma?
    ensures body + 1 < |s| && s[body].Dot? && s[body + 1].Digit? <==> body < RunLength(s)
    ensures forall k | body < k < RunLength(s) :: s[k].Digit?
    ensures body < RunLength(s) < |s| ==> !s[RunLength(s)].Digit?
  {
    var n := RunLength(s);
    sign, body := SignLength(s), BodyLength(s);
    RunFromBody(s);
    forall k | sign < k < body
      ensures s[k].Digit? || s[k].Comma?
    {
      assert s[k] == s[sign + 1..][k - sign - 1];
    }
    if body < |s| {
      assert s[body] == s[sign + 1..][body - sign - 1];
    }
    if body < n {
      forall k | body < k < n
        ensures s[k].Digit?
      {
        assert s[k] == s[body + 1..][k - body - 1];
      }
      if n < |s| {
        assert s[n] == s[body + 1..][n - body - 1];
      }
    }
  }

  lemma SpanIsNumber(s: Text)
    requires RunLength(s) > 0
    ensures IsNumber(s[..RunLength(s)])
  {
    hide RunLength, SignLength;
    var sign, body := RunParts(s);
    assert SignLength(s) <= 1 && (SignLength(s) == 1 ==> s[0].Currency?) by { SignIs(s); }
    assert NumberParts(s[..RunLength(s)], sign, body);
  }

  lemma SignIs(s: Text)
    ensures SignLength(s) == if s != [] && s[0].Currency? then 1 else 0
  {
  }

  lemma NumberIsShort(s: Text, n: nat, i: nat, j: nat)
    requires n <= |s| && NumberParts(s[..n], i, j)
    ensures 0 < n <= RunLength(s)
  {
    assert forall k | 0 <= k < n :: s[..n][k] == s[k];
    assert RunLength(s) > 0 && SignLength(s) == i;
    hide RunLength, SignLength;
    var sign, body := RunParts(s);
    assert j <= body;
    assert j < n ==> j == body && body < RunLength(s);
  }

  /** The number run at the head of a text is the longest number there. */
  lemma RunExactly(s: Text)
    ensures LongestNumber(s, |s|) == RunLength(s)
  {
    hide RunLength, IsNumber;
    LongestFrom(s, |s|);
  }

  lemma {:induction false} LongestFrom(s: Text, n: nat)
    requires RunLength(s) <= n <= |s|
    ensures LongestNumber(s, n) == RunLength(s)
  {
    hide RunLength, NumberParts;
    if IsNumber(s[..n]) {
      var i: nat, j: nat :| NumberParts(s[..n], i, j);
      NumberIsShort(s, n, i, j);
    } else if n > 0 {
      if n == RunLength(s) {
        SpanIsNumber(s);
        assert false;
      }
      LongestFrom(s, n - 1);
    }
  }

  lemma InNumberHead(s: Text, k: nat)
    requires s != []
    ensures InNumber(s, k) <==>
      if k < HeadLength(s) then RunLength(s) > 0 else InNumber(s[HeadLength(s)..], k - HeadLength(s))
  {
    hide RunLength, LongestNumber;
    RunExactly(s);
  }

  /** The count of numbers starts afresh after a position that lies in none. */
  lemma {:induction false} InNumberAfter(s: Text, n: nat, k: nat)
    requires n <= |s| && (n > 0 ==> !InNumber(s, n - 1))
    ensures InNumber(s[n..], k) <==> InNumber(s, n + k)
    decreases |s|
  {
    hide RunLength, InNumber;
    if n == 0 {
      assert s[0..] == s;
    } else {
      var h := HeadLength(s);
      InNumberHead(s, n - 1);
      InNumberHead(s, n + k);
      if n > h {
        InNumberAfter(s[h..], n - h, k);
        assert s[h..][n - h..] == s[n..];
      }
    }
  }

  // ---------------------------------------------------------------------------
  // Sentences

  /** A full stop, another end mark, outside numbers. */
  ghost predicate Ends(s: Text, k: nat) {
    k < |s| && (s[k].Dot? || s[k].Stop?) && !InNumber(s, k)
  }

  lemma EndsHead(s: Text, k: nat)
    requires s != []
    ensures Ends(s, k) <==>
      if k < HeadLength(s) then RunLength(s) == 0 && EndMark(s[0]) else Ends(s[HeadLength(s)..], k - HeadLength(s))
  {
    hide RunLength, InNumber;
    InNumberHead(s, k);
  }

  /** The first sentence ends right after the first position that ends one. */
  lemma {:induction false} SentenceExactly(s: Text)
    ensures var n := SentenceLength(s);
      && (n > 0 ==> Ends(s, n - 1) && forall k: nat | k < n - 1 :: !Ends(s, k))
      && (n == 0 ==> forall k: nat | k < |s| :: !Ends(s, k))
    decreases |s|
  {
    hide RunLength, InNumber, Ends, EndMark, SentenceLength, HeadLength;
    if s == [] {
      assert SentenceLength([]) == 0 by { NoSentence(); }
    } else {
      var h := HeadLength(s);
      BeyondHead(s, 0);
      EndsHead(s, 0);
      SentenceExactly(s[h..]);
      forall k: nat
        ensures Ends(s, k) <==> if k < h then RunLength(s) == 0 && EndMark(s[0]) else Ends(s[h..], k - h)
      {
        EndsHead(s, k);
      }
    }
  }

  /** The text from `start` on, cut after every position from k on that ends a sentence; the last part has no end. */
  ghost function CutAtEnds(s: Text, start: nat, k: nat): (parts: seq<Text>)
    requires start <= k <= |s|
    ensures parts != []
    decreases |s| - k
  {
    if k == |s| then [s[start..]]
    else if Ends(s, k) then [s[start..k + 1]] + CutAtEnds(s, k + 1, k + 1)
    else CutAtEnds(s, start, k + 1)
  }

  ghost function Sentences(s: Text): seq<Text> {
    CutAtEnds(s, 0, 0)
  }

  lemma {:induction false} NoCutBefore(s: Text, start: nat, k: nat, m: nat)
    requires start <= k <= m <= |s| && forall i | k <= i < m :: !Ends(s, i)
    ensures CutAtEnds(s, start, k) == CutAtEnds(s, start, m)
    decreases m - k
  {
    hide Ends;
    if k < m {
      NoCutBefore(s, start, k + 1, m);
    }
  }

  lemma {:induction false} CutAfter(s: Text, n: nat, start: nat, k: nat)
    requires n <= |s| && n > 0 && !InNumber(s, n - 1) && start <= k <= |s| - n
    ensures CutAtEnds(s, n + start, n + k) == CutAtEnds(s[n..], start, k)
    decreases |s| - k
  {
    hide InNumber;
    InNumberAfter(s, n, k);
    if n + k < |s| {
      assert Ends(s, n + k) == Ends(s[n..], k);
      assert s[n + start..n + k + 1] == s[n..][start..k + 1];
      if Ends(s, n + k) {
        CutAfter(s, n, k + 1, k + 1);
      } else {
        CutAfter(s, n, start, k + 1);
      }
    } else {
      assert s[n + start..] == s[n..][start..];
    }
  }

  lemma FirstSentence(s: Text)
    ensures var n := SentenceLength(s);
      if n == 0 then Sentences(s) == [s] else Sentences(s) == [s[..n]] + Sentences(s[n..])
  {
    hide InNumber, SentenceLength;
    SentenceExactly(s);
    var n := SentenceLength(s);
    if n == 0 {
      NoCutBefore(s, 0, 0, |s|);
      assert s[0..] == s;
    } else {
      NoCutBefore(s, 0, 0, n - 1);
      CutAfter(s, n, 0, 0);
      assert s[0..n] == s[..n];
    }
  }

  // ---------------------------------------------------------------------------
  // Clauses

  /** A letter as the patterns match it, in either case; the long s is an s. */
  predicate SameLetter(c: Sym, l: char) {
    c.Letter? && (c.cp == l as int || c.cp == l as int - 32 || (l == 's' && c.cp == 383))
  }

  /** The word stands at position j, and no letter follows it. */
  predicate SaysWord(s: Text, j: nat, w: string) {
    && j + |w| <= |s| && (forall i | 0 <= i < |w| :: SameLetter(s[j + i], w[i]))
    && (j + |w| < |s| ==> !s[j + |w|].Letter?)
  }

  predicate SaysConjunction(s: Text, j: nat) {
    || SaysWord(s, j, "and") || SaysWord(s, j, "but") || SaysWord(s, j, "or") || SaysWord(s, j, "so")
    || SaysWord(s, j, "because") || SaysWord(s, j, "then")
  }

  /** Position k is a comma outside numbers, or whitespace that leads to a conjunction. */
  ghost predicate Breaks(s: Text, k: nat) {
    k < |s| &&
    ((s[k].Comma? && !InNumber(s, k))
      || exists j: nat | k < j <= |s| :: AllSpace(s[k..j]) && SaysConjunction(s, j))
  }

  /** The text trimmed, unless nothing is left of it. */
  function Trimmed(s: Text): seq<Text> {
    if AllSpace(s) then [] else [Strip(s)]
  }

  /** The text from `start` on, with every position from k on that breaks taken out, trimmed, and nothing blank. */
  ghost function CutAtBreaks(s: Text, start: nat, k: nat): seq<Text>
    requires start <= k <= |s|
    decreases |s| - k
  {
    if k == |s| then Trimmed(s[start..])
    else if Breaks(s, k) then Trimmed(s[start..k]) + CutAtBreaks(s, k + 1, k + 1)
    else CutAtBreaks(s, start, k + 1)
  }

  // Where the breaks of masked text are

  lemma LetterUnit(q: Text, base: nat)
    requires q != [] && q[0].Letter?
    ensures RunLength(q) == 0
    ensures Spell(Units(q, base)) == [q[0]] + Spell(Units(q[1..], base))
  {
    NextUnit(q, base);
  }

  lemma FirstOfUnits(q: Text, base: nat)
    requires q != []
    ensures var t := Spell(Units(q, base)); t != [] && (t[0] == if RunLength(q) > 0 then Nul else q[0])
  {
    NextUnit(q, base);
  }

  /** A word at the head of masked text is a word at the head of the text. */
  lemma {:induction false} SameWord(q: Text, base: nat, w: string)
    requires NulFree(q)
    requires forall k | 0 <= k < |w| :: 'a' <= w[k] <= 'z'
    ensures WordIs(Spell(Units(q, base)), w) <==> SaysWord(q, 0, w)
    decreases |w|
  {
    hide Units, Spell, RunLength;
    var t := Spell(Units(q, base));
    if q == [] {
      assert t == [] by { NothingLeft(); }
    } else {
      FirstOfUnits(q, base);
      RunStarts(q);
      if w != [] {
        WordTail(t, w);
        SaysTail(q, w);
        if q[0].Letter? {
          LetterUnit(q, base);
          SameWord(q[1..], base, w[1..]);
        }
      }
    }
  }

  lemma RunStarts(q: Text)
    requires q != []
    ensures q[0].Digit? ==> RunLength(q) > 0
    ensures RunLength(q) > 0 ==> q[0].Digit? || q[0].Currency?
  {
  }

  lemma WordTail(t: Text, w: string)
    requires t != [] && w != []
    ensures WordIs(t, w) <==> LetterIs(t[0], w[0]) && WordIs(t[1..], w[1..])
  {
    if WordIs(t, w) {
      forall k | 0 <= k < |w| - 1
        ensures LetterIs(t[1..][k], w[1..][k])
      {
        assert LetterIs(t[k + 1], w[k + 1]);
      }
    }
    if LetterIs(t[0], w[0]) && WordIs(t[1..], w[1..]) {
      forall k | 0 <= k < |w|
        ensures LetterIs(t[k], w[k])
      {
        assert k > 0 ==> LetterIs(t[1..][k - 1], w[1..][k - 1]);
      }
    }
  }

  lemma SaysTail(q: Text, w: string)
    requires q != [] && w != []
    ensures SaysWord(q, 0, w) <==> SameLetter(q[0], w[0]) && SaysWord(q[1..], 0, w[1..])
  {
    if SaysWord(q, 0, w) {
      assert SameLetter(q[0 + 0], w[0]);
      forall k | 0 <= k < |w| - 1
        ensures SameLetter(q[1..][0 + k], w[1..][k])
      {
        assert SameLetter(q[0 + (k + 1)], w[k + 1]);
      }
    }
    if SameLetter(q[0], w[0]) && SaysWord(q[1..], 0, w[1..]) {
      forall k | 0 <= k < |w|
        ensures SameLetter(q[0 + k], w[k])
      {
        assert k > 0 ==> SameLetter(q[1..][0 + (k - 1)], w[1..][k - 1]);
      }
    }
  }

  lemma SameConjunction(q: Text, base: nat)
    requires NulFree(q)
    ensures StartsConjunction(Spell(Units(q, base))) <==> SaysConjunction(q, 0)
  {
    hide Units, Spell, WordIs, SaysWord;
    SameWord(q, base, "and");
    SameWord(q, base, "but");
    SameWord(q, base, "or");
    SameWord(q, base, "so");
    SameWord(q, base, "because");
    SameWord(q, base, "then");
  }

  /** A space at the head of a text is one unit. */
  lemma SpaceUnit(q: Text, base: nat)
    requires q != [] && (q[0].Space? || q[0].Comma?)
    ensures RunLength(q) == 0 && Units(q, base) == [Plain(q[0])] + Units(q[1..], base)
    ensures Spell(Units(q, base)) == [q[0]] + Spell(Units(q[1..], base))
  {
    RunStarts(q);
    NextUnit(q, base);
  }

  /** The spaces at the head of masked text are those of the text. */
  lemma {:induction false} SameSpaces(q: Text, base: nat)
    ensures var n := SpanSpace(q); var us := Units(q, base);
      && SpanSpace(Spell(us)) == n <= |us| && us[n..] == Units(q[n..], base)
      && Spell(us)[n..] == Spell(Units(q[n..], base))
  {
    hide RunLength, Units, Spell;
    var us := Units(q, base);
    if q == [] {
      NothingLeft();
      assert us == [] by { NoUnits(base); }
    } else {
      FirstOfUnits(q, base);
      if q[0].Space? {
        SpaceUnit(q, base);
        SameSpaces(q[1..], base);
        var m := SpanSpace(q[1..]);
        assert Spell(us)[1..] == Spell(Units(q[1..], base)) && us[1..] == Units(q[1..], base);
        assert us[1..][m..] == us[m + 1..] && q[1..][m..] == q[m + 1..] && Spell(us)[1..][m..] == Spell(us)[m + 1..];
      } else {
        assert us[0..] == us && q[0..] == q && Spell(us)[0..] == Spell(us);
      }
    }
  }

  lemma NoUnits(base: nat)
    ensures Units([], base) == []
  {
  }

  lemma SpanOfSpaces(q: Text, j: nat)
    requires j <= |q| && AllSpace(q[..j]) && (j < |q| ==> !q[j].Space?)
    ensures SpanSpace(q) == j
  {
    assert forall k | 0 <= k < j :: q[..j][k] == q[k];
  }

  lemma ConjunctionIsLetter(s: Text, j: nat)
    requires j <= |s| && SaysConjunction(s, j)
    ensures j < |s| && s[j].Letter?
  {
    assert |s| > j;
    assert SaysWord(s, j, "and") ==> SameLetter(s[j + 0], "and"[0]);
    assert SaysWord(s, j, "but") ==> SameLetter(s[j + 0], "but"[0]);
    assert SaysWord(s, j, "or") ==> SameLetter(s[j + 0], "or"[0]);
    assert SaysWord(s, j, "so") ==> SameLetter(s[j + 0], "so"[0]);
    assert SaysWord(s, j, "because") ==> SameLetter(s[j + 0], "because"[0]);
    assert SaysWord(s, j, "then") ==> SameLetter(s[j + 0], "then"[0]);
  }

  lemma SaysLater(s: Text, n: nat, j: nat, w: string)
    requires n <= |s|
    ensures SaysWord(s[n..], j, w) <==> SaysWord(s, n + j, w)
  {
    if n + j + |w| <= |s| {
      forall i | 0 <= i < |w|
        ensures SameLetter(s[n..][j + i], w[i]) <==> SameLetter(s[n + j + i], w[i])
      {
      }
    }
  }

  lemma SaysConjunctionLater(s: Text, n: nat, j: nat)
    requires n <= |s|
    ensures SaysConjunction(s[n..], j) <==> SaysConjunction(s, n + j)
  {
    hide SaysWord;
    SaysLater(s, n, j, "and");
    SaysLater(s, n, j, "but");
    SaysLater(s, n, j, "or");
    SaysLater(s, n, j, "so");
    SaysLater(s, n, j, "because");
    SaysLater(s, n, j, "then");
  }

  lemma CommaAtHead(q: Text, base: nat)
    requires q != [] && q[0].Comma?
    ensures Breaks(q, 0)
    ensures var n := 1 + SpanSpace(q[1..]); var us := Units(q, base);
      && BreakLength(Spell(us)) == n <= |us| && us[n..] == Units(q[n..], base) && AllSpace(q[1..n])
  {
    hide Units, Spell, StartsConjunction, SaysConjunction, InNumber, RunLength;
    SpaceUnit(q, base);
    InNumberHead(q, 0);
    SameSpaces(q[1..], base);
    var m := SpanSpace(q[1..]);
    assert Spell(Units(q, base))[1..] == Spell(Units(q[1..], base));
    assert Units(q, base)[1 + m..] == Units(q[1..], base)[m..] && q[1..][m..] == q[1 + m..];
    SpanIsSpace(q[1..]);
    assert q[1..][..m] == q[1..1 + m];
  }

  /** Whitespace breaks exactly if a conjunction follows it. */
  lemma SpaceBreaks(q: Text)
    requires q != [] && q[0].Space?
    ensures Breaks(q, 0) <==> SaysConjunction(q, SpanSpace(q))
  {
    hide SaysConjunction, InNumber;
    var n := SpanSpace(q);
    SpanIsSpace(q);
    assert q[0..n] == q[..n];
    if Breaks(q, 0) {
      var j: nat :| 0 < j <= |q| && AllSpace(q[0..j]) && SaysConjunction(q, j);
      ConjunctionIsLetter(q, j);
      assert q[0..j] == q[..j];
      SpanOfSpaces(q, j);
    }
  }

  lemma SpaceAtHead(q: Text, base: nat)
    requires NulFree(q) && q != [] && q[0].Space?
    ensures var n := SpanSpace(q); var us := Units(q, base);
      && n > 0 && BreakLength(Spell(us)) == (if Breaks(q, 0) then n else 0)
      && n <= |us| && us[n..] == Units(q[n..], base) && AllSpace(q[1..n])
  {
    hide Units, Spell, StartsConjunction, SaysConjunction, InNumber, RunLength, Breaks;
    SpaceUnit(q, base);
    SameSpaces(q, base);
    var n := SpanSpace(q);
    SpaceBreaks(q);
    SameConjunction(q[n..], base);
    SaysConjunctionLater(q, n, 0);
  }

  /** Masked text has a break at its head exactly if the text breaks there, and all of it is separators. */
  lemma BreakAtHead(q: Text, base: nat)
    requires NulFree(q) && q != []
    ensures var n := BreakLength(Spell(Units(q, base))); var us := Units(q, base);
      && (n > 0 <==> Breaks(q, 0))
      && (n > 0 ==> n <= |q| && n <= |us| && us[n..] == Units(q[n..], base) && RunLength(q) == 0 && AllSpace(q[1..n]))
  {
    hide Units, Spell, RunLength, StartsConjunction, Breaks;
    FirstOfUnits(q, base);
    RunStarts(q);
    if q[0].Comma? {
      CommaAtHead(q, base);
    } else if q[0].Space? {
      SpaceAtHead(q, base);
    } else {
      NoBreakAtHead(q);
    }
  }

  lemma SpanIsSpace(q: Text)
    ensures AllSpace(q[..SpanSpace(q)])
  {
  }

  lemma NoBreakAtHead(q: Text)
    requires q != [] && !q[0].Comma? && !q[0].Space?
    ensures !Breaks(q, 0)
  {
    forall j: nat | 0 < j <= |q|
      ensures !AllSpace(q[0..j])
    {
      assert q[0..j][0] == q[0];
    }
  }

  // Splitting the masked text is taking out what breaks

  /** The numbers of the text from n on are those of the whole text there. */
  ghost predicate Fresh(s: Text, n: nat) {
    n <= |s| && forall k: nat :: InNumber(s[n..], k) <==> InNumber(s, n + k)
  }

  lemma FreshNext(s: Text, n: nat)
    requires n < |s| && Fresh(s, n)
    ensures Fresh(s, n + HeadLength(s[n..]))
  {
    hide InNumber, HeadLength;
    var h := HeadLength(s[n..]);
    var m := n + h;
    assert s[n..][h..] == s[m..];
    forall k: nat
      ensures InNumber(s[m..], k) <==> InNumber(s, m + k)
    {
      InNumberHead(s[n..], h + k);
      assert InNumber(s[n..], h + k) <==> InNumber(s, n + (h + k));
    }
  }

  lemma BreaksLater(s: Text, n: nat)
    requires n < |s| && Fresh(s, n)
    ensures Breaks(s[n..], 0) <==> Breaks(s, n)
  {
    hide InNumber, SaysConjunction;
    assert InNumber(s[n..], 0) <==> InNumber(s, n + 0);
    if j: nat :| n < j <= |s| && AllSpace(s[n..j]) && SaysConjunction(s, j) {
      SaysConjunctionLater(s, n, j - n);
      assert s[n..][0..j - n] == s[n..j];
    }
    if j: nat :| 0 < j <= |s[n..]| && AllSpace(s[n..][0..j]) && SaysConjunction(s[n..], j) {
      SaysConjunctionLater(s, n, j);
      assert s[n..][0..j] == s[n..n + j];
    }
  }

  /** Nothing inside a number breaks. */
  lemma NumberDoesNotBreak(s: Text, n: nat, k: nat)
    requires n < |s| && Fresh(s, n) && n <= k < n + RunLength(s[n..])
    ensures k < |s| && !Breaks(s, k)
  {
    hide InNumber, SaysConjunction, RunLength;
    InNumberHead(s[n..], k - n);
    assert InNumber(s[n..], k - n) <==> InNumber(s, n + (k - n));
    assert s[k] == s[n..][k - n];
    forall j: nat | k < j <= |s|
      ensures !AllSpace(s[k..j])
    {
      assert s[k..j][0] == s[k];
    }
  }

  lemma {:induction false} NoBreakBefore(s: Text, start: nat, k: nat, m: nat)
    requires start <= k <= m <= |s| && forall i | k <= i < m :: !Breaks(s, i)
    ensures CutAtBreaks(s, start, k) == CutAtBreaks(s, start, m)
    decreases m - k
  {
    hide Breaks;
    if k < m {
      NoBreakBefore(s, start, k + 1, m);
    }
  }

  lemma BlankIsAllSpace(s: Text)
    ensures Blank(s) <==> AllSpace(s)
  {
  }

  lemma {:induction false} SpanAfterBlank(x: Text, y: Text)
    requires AllSpace(x)
    ensures SpanSpace(x + y) == |x| + SpanSpace(y)
  {
    if x == [] {
      assert x + y == y;
    } else {
      assert (x + y)[1..] == x[1..] + y;
      SpanAfterBlank(x[1..], y);
    }
  }

  lemma AllSpaceParts(x: Text, y: Text)
    ensures AllSpace(x + y) <==> AllSpace(x) && AllSpace(y)
  {
    assert forall k | 0 <= k < |x| :: (x + y)[k] == x[k];
    assert forall k | 0 <= k < |y| :: (x + y)[|x| + k] == y[k];
  }

  lemma BlankBefore(x: Text, y: Text)
    requires AllSpace(x)
    ensures Trimmed(x + y) == Trimmed(y)
  {
    AllSpaceParts(x, y);
    SpanAfterBlank(x, y);
    hide AllSpace, TrimRight;
    assert (x + y)[|x| + SpanSpace(y)..] == y[SpanSpace(y)..];
  }

  lemma {:induction false} BlankStart(s: Text, start: nat, start': nat, k: nat)
    requires start <= start' <= k <= |s| && AllSpace(s[start..start'])
    ensures CutAtBreaks(s, start, k) == CutAtBreaks(s, start', k)
    decreases |s| - k
  {
    hide Breaks, Trimmed, AllSpace;
    BlankBefore(s[start..start'], s[start'..k]);
    assert s[start..k] == s[start..start'] + s[start'..k];
    if k < |s| && !Breaks(s, k) {
      BlankStart(s, start, start', k + 1);
    } else if k == |s| {
      assert s[start..] == s[start..k] && s[start'..] == s[start'..k];
    }
  }

  lemma {:induction false} SpacesDropped(s: Text, k: nat, m: nat)
    requires k <= m <= |s| && AllSpace(s[k..m])
    ensures CutAtBreaks(s, k, k) == CutAtBreaks(s, m, m)
    decreases m - k
  {
    hide Breaks;
    if k < m {
      assert s[k] == s[k..m][0];
      assert AllSpace(s[k + 1..m]) by {
        assert s[k + 1..m] == s[k..m][1..];
      }
      SpacesDropped(s, k + 1, m);
      if Breaks(s, k) {
        assert s[k..k] == [];
      } else {
        assert s[k..k + 1] == [s[k]];
        BlankStart(s, k, k + 1, k + 1);
      }
    }
  }

  /** What the pieces of masked text become when `pending` stands before the first. */
  function ExpandAfter(pending: Text, pieces: seq<seq<Unit>>, runs: seq<Text>): seq<Text>
    requires pieces != []
  {
    Trimmed(pending + Expand(pieces[0], runs)) + ExpandPieces(pieces[1..], runs)
  }

  predicate NoSpaces(runs: seq<Text>) {
    forall i | 0 <= i < |runs| :: runs[i] != [] && !runs[i][0].Space?
  }

  lemma {:induction false} SameBlank(us: seq<Unit>, runs: seq<Text>, lo: nat)
    requires Masked(us, lo, |runs|) && NoSpaces(runs)
    ensures AllSpace(Spell(us)) <==> AllSpace(Expand(us, runs))
  {
    if us != [] {
      SameBlank(us[1..], runs, if us[0].Hole? then us[0].index + 1 else lo);
      hide Spell, Expand, Masked, Placeholder;
      SpellHead(us[0], us[1..]);
      SpellOne(us[0]);
      assert us == [us[0]] + us[1..];
      ExpandConcat([us[0]], us[1..], runs);
      ExpandOne(us[0], runs);
      if us[0].Hole? {
        assert us[0].index < |runs| by { HoleIndex(us, lo, |runs|); }
        StartsWithNul(us[0].index);
        assert Spell(us)[0] == Nul && Expand(us, runs)[0] == runs[us[0].index][0];
      } else {
        AllSpaceCons(us[0].c, Spell(us[1..]));
        AllSpaceCons(us[0].c, Expand(us[1..], runs));
      }
    }
  }

  lemma AllSpaceCons(c: Sym, s: Text)
    ensures AllSpace([c] + s) <==> c.Space? && AllSpace(s)
  {
    assert ([c] + s)[0] == c;
    assert forall k | 0 <= k < |s| :: ([c] + s)[k + 1] == s[k];
  }

  lemma HoleIndex(us: seq<Unit>, lo: nat, hi: nat)
    requires us != [] && us[0].Hole? && Masked(us, lo, hi)
    ensures us[0].index < hi
  {
  }

  /** With nothing pending, the pieces are expanded as they are. */
  lemma NothingPending(pieces: seq<seq<Unit>>, runs: seq<Text>)
    requires pieces != [] && Masked(pieces[0], 0, |runs|) && NoSpaces(runs)
    ensures ExpandAfter([], pieces, runs) == ExpandPieces(pieces, runs)
  {
    hide Spell, Expand, Masked;
    SameBlank(pieces[0], runs, 0);
    BlankIsAllSpace(Spell(pieces[0]));
    assert [] + Expand(pieces[0], runs) == Expand(pieces[0], runs);
  }

  lemma HeadStep(t: Text, base: nat, runs: seq<Text>, pending: Text)
    requires t != [] && BreakLength(Spell(Units(t, base))) == 0
    requires RunLength(t) > 0 ==> base < |runs| && runs[base] == t[..RunLength(t)]
    ensures var h := HeadLength(t); var next := if RunLength(t) > 0 then base + 1 else base;
      ExpandAfter(pending, UnitSplit(Units(t, base)), runs)
        == ExpandAfter(pending + t[..h], UnitSplit(Units(t[h..], next)), runs)
  {
    hide RunLength, Units, Spell, BreakLength, UnitSplit, Expand, ExpandPieces, Trimmed;
    var h, u := HeadLength(t), HeadUnit(t, base);
    var rest := Units(t[h..], if RunLength(t) > 0 then base + 1 else base);
    BeyondHead(t, base);
    UnitSplitStep(Units(t, base));
    assert Units(t, base)[1..] == rest && Units(t, base)[0] == u;
    var later := UnitSplit(rest);
    assert ([[u] + later[0]] + later[1..])[1..] == later[1..];
    ExpandConcat([u], later[0], runs);
    HeadExpands(t, base, runs);
    Regroup(pending, t[..h], Expand(later[0], runs));
  }

  lemma BreakStep(us: seq<Unit>, n: nat, runs: seq<Text>, pending: Text)
    requires us != [] && n == BreakLength(Spell(us)) && 0 < n <= |us|
    ensures ExpandAfter(pending, UnitSplit(us), runs) == Trimmed(pending) + ExpandPieces(UnitSplit(us[n..]), runs)
  {
    hide Spell, BreakLength, UnitSplit, ExpandPieces, Trimmed;
    UnitSplitStep(us);
    assert ([[]] + UnitSplit(us[n..]))[1..] == UnitSplit(us[n..]);
    assert pending + Expand([], runs) == pending;
  }

  /** From a fresh position on: the clauses of the text are the pieces of its masked form. */
  lemma {:induction false} PiecesFrom(s: Text, start: nat, k: nat, base: nat, runs: seq<Text>)
    requires start <= k <= |s| && Fresh(s, k) && NulFree(s) && NoSpaces(runs)
    requires var t := s[k..]; base + |Runs(t)| == |runs| && runs[base..base + |Runs(t)|] == Runs(t)
    ensures CutAtBreaks(s, start, k) == ExpandAfter(s[start..k], UnitSplit(Units(s[k..], base)), runs)
    decreases |s| - k, 1
  {
    hide Fresh, RunLength, Runs, Units, UnitSplit, BreakLength, Breaks, ExpandAfter, HeadLength, Spell, NoSpaces;
    var t := s[k..];
    if t == [] {
      assert s[start..] == s[start..k];
      NoPiecesLeft(s[start..k], base, runs);
    } else {
      BreakAtHead(t, base);
      BreaksLater(s, k);
      RunsTail(t, base, runs);
      var n := BreakLength(Spell(Units(t, base)));
      if n > 0 {
        BreakInside(s, start, k, base, runs, n);
      } else {
        HeadInside(s, start, k, base, runs);
      }
    }
  }

  lemma HeadInside(s: Text, start: nat, k: nat, base: nat, runs: seq<Text>)
    requires start <= k < |s| && Fresh(s, k) && NulFree(s) && NoSpaces(runs)
    requires var t := s[k..]; base + |Runs(t)| == |runs| && runs[base..base + |Runs(t)|] == Runs(t)
    requires BreakLength(Spell(Units(s[k..], base))) == 0 && !Breaks(s, k)
    ensures CutAtBreaks(s, start, k) == ExpandAfter(s[start..k], UnitSplit(Units(s[k..], base)), runs)
    decreases |s| - k, 0
  {
    hide Fresh, RunLength, Runs, Units, UnitSplit, BreakLength, Breaks, ExpandAfter, HeadLength, Spell, NoSpaces,
      CutAtBreaks;
    var t := s[k..];
    var h, next := HeadLength(t), if RunLength(t) > 0 then base + 1 else base;
    RunsTail(t, base, runs);
    HeadStep(t, base, runs, s[start..k]);
    HeadIs(t);
    FreshNext(s, k);
    forall i | k <= i < k + h
      ensures !Breaks(s, i)
    {
      if i > k {
        NumberDoesNotBreak(s, k, i);
      }
    }
    NoBreakBefore(s, start, k, k + h);
    assert t[h..] == s[k + h..] && s[start..k] + t[..h] == s[start..k + h];
    RunsAfterHead(t, base, runs);
    PiecesFrom(s, start, k + h, next, runs);
  }

  lemma HeadIs(t: Text)
    requires t != []
    ensures HeadLength(t) == if RunLength(t) > 0 then RunLength(t) else 1
  {
  }

  lemma RunsAfterHead(t: Text, base: nat, runs: seq<Text>)
    requires t != [] && base + |Runs(t)| == |runs| && runs[base..base + |Runs(t)|] == Runs(t)
    ensures var next := if RunLength(t) > 0 then base + 1 else base; var rest := t[HeadLength(t)..];
      next + |Runs(rest)| == |runs| && runs[next..next + |Runs(rest)|] == Runs(rest)
  {
    hide RunLength;
    RunsTail(t, base, runs);
  }

  lemma {:induction false} SpacesSkipped(s: Text, k: nat, m: nat)
    requires k <= m <= |s| && Fresh(s, k) && AllSpace(s[k..m])
    ensures Fresh(s, m) && Runs(s[m..]) == Runs(s[k..])
    decreases m - k
  {
    hide Fresh, RunLength, HeadLength;
    if k < m {
      var t := s[k..];
      assert t[0] == s[k..m][0];
      RunStarts(t);
      HeadIs(t);
      FreshNext(s, k);
      assert t[1..] == s[k + 1..] && s[k + 1..m] == s[k..m][1..];
      SpacesSkipped(s, k + 1, m);
    }
  }

  lemma BreakSkipped(s: Text, k: nat, n: nat)
    requires k < |s| && Fresh(s, k) && RunLength(s[k..]) == 0 && 0 < n <= |s| - k && AllSpace(s[k..][1..n])
    ensures Fresh(s, k + n) && Runs(s[k + n..]) == Runs(s[k..])
    ensures AllSpace(s[k + 1..k + n])
  {
    hide Fresh, RunLength, HeadLength;
    var t := s[k..];
    HeadIs(t);
    FreshNext(s, k);
    assert t[1..] == s[k + 1..] && s[k + 1..k + n] == t[1..n];
    SpacesSkipped(s, k + 1, k + n);
  }

  lemma FirstPieceMasked(t: Text, base: nat, runs: seq<Text>)
    requires NulFree(t) && base + |Runs(t)| == |runs|
    ensures Masked(UnitSplit(Units(t, base))[0], 0, |runs|)
  {
    hide Units, Runs, UnitSplit, Masked, NulFree;
    UnitsAreMasked(t, base);
    SplitMasked(Units(t, base), base, |runs|);
    MaskedWeaken(UnitSplit(Units(t, base))[0], base, 0, |runs|);
  }

  lemma BreakInside(s: Text, start: nat, k: nat, base: nat, runs: seq<Text>, n: nat)
    requires start <= k < |s| && Fresh(s, k) && NulFree(s) && NoSpaces(runs)
    requires var t := s[k..]; base + |Runs(t)| == |runs| && runs[base..base + |Runs(t)|] == Runs(t)
    requires n == BreakLength(Spell(Units(s[k..], base))) && n > 0
    ensures CutAtBreaks(s, start, k) == ExpandAfter(s[start..k], UnitSplit(Units(s[k..], base)), runs)
    decreases |s| - k, 0
  {
    hide Fresh, RunLength, Runs, Units, UnitSplit, BreakLength, Breaks, ExpandAfter, HeadLength, Spell, NoSpaces,
      Trimmed, ExpandPieces, Masked, AllSpace;
    var t := s[k..];
    BreakAtHead(t, base);
    BreaksLater(s, k);
    BreakSkipped(s, k, n);
    assert t[n..] == s[k + n..];
    SpacesDropped(s, k + 1, k + n);
    NoUnits(base);
    assert Units(t, base) != [];
    BreakStep(Units(t, base), n, runs, s[start..k]);
    PiecesFrom(s, k + n, k + n, base, runs);
    FirstPieceMasked(s[k + n..], base, runs);
    NothingPending(UnitSplit(Units(s[k + n..], base)), runs);
    assert s[k + n..k + n] == [];
  }

  lemma NoPiecesLeft(pending: Text, base: nat, runs: seq<Text>)
    ensures ExpandAfter(pending, UnitSplit(Units([], base)), runs) == Trimmed(pending)
  {
    assert pending + [] == pending;
  }

  lemma {:induction false} RunsHaveNoSpaces(s: Text)
    ensures NoSpaces(Runs(s))
    decreases |s|
  {
    hide RunLength;
    if s != [] {
      RunStarts(s);
      RunsHaveNoSpaces(s[HeadLength(s)..]);
    }
  }

  /** The clauses of a text are what is left of it between the positions that break, trimmed. */
  lemma ClausesExactly(s: Text)
    requires NulFree(s)
    ensures SplitIntoClauses(s) == CutAtBreaks(s, 0, 0)
  {
    hide InNumber, Runs, Units, UnitSplit, ExpandAfter, CutAtBreaks, SplitIntoClauses, Masked, NoSpaces;
    assert s[0..] == s && s[0..0] == [];
    RunsHaveNoSpaces(s);
    PiecesFrom(s, 0, 0, 0, Runs(s));
    FirstPieceMasked(s, 0, Runs(s));
    NothingPending(UnitSplit(Units(s, 0)), Runs(s));
    SplitIntoClausesIsClauses(s);
  }

  // ---------------------------------------------------------------------------
  // Words, trimming and joining

  predicate IsWord(w: Text) {
    w != [] && forall k | 0 <= k < |w| :: !w[k].Space?
  }

  /** The text is these words, with the gaps around and between them. */
  function Woven(gaps: seq<Text>, words: seq<Text>): Text
    requires |gaps| == |words| + 1
  {
    if words == [] then gaps[0] else gaps[0] + words[0] + Woven(gaps[1..], words[1..])
  }

  /** Gaps are whitespace, and no two words touch. */
  predicate Weaves(s: Text, gaps: seq<Text>, words: seq<Text>) {
    && |gaps| == |words| + 1 && s == Woven(gaps, words)
    && (forall i | 0 <= i < |words| :: IsWord(words[i]))
    && (forall i | 0 <= i < |gaps| :: AllSpace(gaps[i]))
    && (forall i | 0 < i < |words| :: gaps[i] != [])
  }

  lemma WordsOfGap(gap: Text, s: Text)
    requires AllSpace(gap)
    ensures Words(gap + s) == Words(s)
  {
    if gap == [] {
      assert gap + s == s;
    } else {
      assert (gap + s)[1..] == gap[1..] + s;
      WordsOfGap(gap[1..], s);
    }
  }

  lemma {:induction false} SpanOfWord(w: Text, s: Text)
    requires (forall k | 0 <= k < |w| :: !w[k].Space?) && (s != [] ==> s[0].Space?)
    ensures SpanWord(w + s) == |w|
  {
    if w == [] {
      assert w + s == s;
    } else {
      assert (w + s)[1..] == w[1..] + s;
      SpanOfWord(w[1..], s);
    }
  }

  lemma WordFirst(w: Text, s: Text)
    requires IsWord(w) && (s != [] ==> s[0].Space?)
    ensures Words(w + s) == [w] + Words(s)
  {
    SpanOfWord(w, s);
    assert (w + s)[..|w|] == w && (w + s)[|w|..] == s && (w + s)[0] == w[0];
  }

  lemma GapFirst(gap: Text, s: Text)
    requires AllSpace(gap) && gap != []
    ensures gap + s != [] && (gap + s)[0].Space?
  {
  }

  /** The words of a text are the only ones it can be woven of. */
  lemma {:induction false} WordsAreOnly(s: Text, gaps: seq<Text>, words: seq<Text>)
    requires Weaves(s, gaps, words)
    ensures Words(s) == words
    decreases |words|
  {
    hide Words;
    if words == [] {
      WordsOfGap(s, []);
      assert s + [] == s;
      assert Words([]) == [] by { NoWords(); }
    } else {
      var later := Woven(gaps[1..], words[1..]);
      assert Weaves(later, gaps[1..], words[1..]);
      WordsAreOnly(later, gaps[1..], words[1..]);
      Regroup(gaps[0], words[0], later);
      WordsOfGap(gaps[0], words[0] + later);
      if |words| > 1 {
        assert gaps[1] != [];
        Regroup(gaps[1], words[1], Woven(gaps[2..], words[2..]));
        assert gaps[1..][1..] == gaps[2..] && words[1..][1..] == words[2..];
        GapFirst(gaps[1], words[1] + Woven(gaps[2..], words[2..]));
      } else {
        assert later == gaps[1];
      }
      WordFirst(words[0], later);
    }
  }

  lemma NoWords()
    ensures Words([]) == []
  {
  }

  lemma SpaceFirst(s: Text)
    requires s != [] && s[0].Space?
    ensures Words(s) == Words(s[1..])
  {
  }

  lemma WordAtHead(s: Text)
    requires s != [] && !s[0].Space?
    ensures var n := SpanWord(s); n > 0 && Words(s) == [s[..n]] + Words(s[n..])
  {
  }

  lemma {:induction false} WordsWeave(s: Text) returns (gaps: seq<Text>)
    ensures Weaves(s, gaps, Words(s))
    ensures s != [] && !s[0].Space? ==> gaps[0] == []
    decreases |s|
  {
    hide Words;
    NoWords();
    if s == [] {
      gaps := [[]];
    } else if s[0].Space? {
      SpaceFirst(s);
      var g := WordsWeave(s[1..]);
      gaps := [[s[0]] + g[0]] + g[1..];
      MoreGap(s[0], s[1..], g, Words(s));
    } else {
      WordAtHead(s);
      var n := SpanWord(s);
      var g := WordsWeave(s[n..]);
      gaps := [[]] + g;
      MoreWord(s[..n], s[n..], g, Words(s[n..]));
      assert s == s[..n] + s[n..];
    }
  }

  lemma MoreGap(c: Sym, s: Text, gaps: seq<Text>, words: seq<Text>)
    requires c.Space? && Weaves(s, gaps, words)
    ensures Weaves([c] + s, [[c] + gaps[0]] + gaps[1..], words)
  {
    var more := [[c] + gaps[0]] + gaps[1..];
    assert more[1..] == gaps[1..];
    AllSpaceCons(c, gaps[0]);
    if words != [] {
      Regroup([c], gaps[0], words[0] + Woven(gaps[1..], words[1..]));
      Regroup(gaps[0], words[0], Woven(gaps[1..], words[1..]));
      Regroup([c] + gaps[0], words[0], Woven(gaps[1..], words[1..]));
    }
    assert forall i | 0 < i < |gaps| :: more[i] == gaps[i];
  }

  lemma MoreWord(w: Text, s: Text, gaps: seq<Text>, words: seq<Text>)
    requires IsWord(w) && Weaves(s, gaps, words) && (s != [] ==> s[0].Space?)
    ensures Weaves(w + s, [[]] + gaps, [w] + words)
  {
    var all := [w] + words;
    assert ([[]] + gaps)[1..] == gaps && all[1..] == words;
    assert [] + w + s == w + s;
    assert forall i | 0 < i < |all| :: all[i] == words[i - 1];
    if words != [] {
      assert s[0] == (gaps[0] + words[0])[0];
    }
  }

  /** str.split(): a text is its words and whitespace between and around them, and of no other words. */
  lemma WordsExactly(s: Text) returns (gaps: seq<Text>)
    ensures Weaves(s, gaps, Words(s))
    ensures forall g, ws :: Weaves(s, g, ws) ==> ws == Words(s)
  {
    hide Words, Weaves;
    gaps := WordsWeave(s);
    forall g, ws | Weaves(s, g, ws)
      ensures ws == Words(s)
    {
      WordsAreOnly(s, g, ws);
    }
  }

  /** str.strip(): only whitespace is taken, and none is left at either end. */
  lemma StripExactly(s: Text) returns (before: Text, after: Text)
    ensures s == before + Strip(s) + after && AllSpace(before) && AllSpace(after)
    ensures Strip(s) != [] ==> !Strip(s)[0].Space? && !Strip(s)[|Strip(s)| - 1].Space?
  {
    var n, t := SpanSpace(s), Strip(s);
    before, after := s[..n], s[n..][|t|..];
    assert s[n..] == t + after;
    assert s == before + s[n..];
    Regroup(before, t, after);
    if t != [] {
      assert t[0] == s[n..][0] == s[n];
    }
  }

  /** " ".join(): a word more is one space and the word; and the joined words split into themselves. */
  lemma {:induction false} JoinExactly(words: seq<Text>, w: Text)
    ensures Join([w]) == w
    ensures words != [] ==> Join(words + [w]) == Join(words) + [Space(32)] + w
  {
    if |words| > 1 {
      assert (words + [w])[1..] == words[1..] + [w];
      JoinExactly(words[1..], w);
      var first := words[0] + [BLANK];
      assert first + (Join(words[1..]) + [BLANK] + w) == first + Join(words[1..]) + [BLANK] + w;
    } else if |words| == 1 {
      assert (words + [w])[1..] == [w];
    }
  }

  lemma {:induction false} WordsOfJoin(words: seq<Text>)
    requires forall i | 0 <= i < |words| :: IsWord(words[i])
    ensures Words(Join(words)) == words
    ensures words != [] ==> Join(words) != [] && !Join(words)[0].Space? && !Join(words)[|Join(words)| - 1].Space?
  {
    hide Words;
    if words == [] {
      NoWords();
    } else if |words| == 1 {
      NoWords();
      WordFirst(words[0], []);
      assert words[0] + [] == words[0];
    } else {
      WordsOfJoin(words[1..]);
      var rest := Join(words[1..]);
      Regroup(words[0], [BLANK], rest);
      WordFirst(words[0], [BLANK] + rest);
      WordsOfGap([BLANK], rest);
    }
  }

  /** Nothing is trimmed from joined words. */
  lemma JoinIsTrimmed(words: seq<Text>)
    requires forall i | 0 <= i < |words| :: IsWord(words[i])
    ensures Strip(Join(words)) == Join(words)
  {
    WordsOfJoin(words);
    var s := Join(words);
    assert SpanSpace(s) == 0;
    assert s[0..] == s;
  }

  // ---------------------------------------------------------------------------
  // What a stream says

  /** Up to 25 words are one chunk; more are said clause by clause. */
  ghost function Said(s: Text): seq<Text> {
    if |Words(s)| <= 25 then [Strip(s)] else CutAtBreaks(s, 0, 0)
  }

  /** A sentence; of more than 10 words that come first, the first 10 are a chunk of their own. */
  ghost function SaidSentence(s: Text, first: bool): seq<Text> {
    if first && |Words(s)| > 10 then [Join(Words(s)[..10])] + Said(Join(Words(s)[10..])) else Said(s)
  }

  /** All parts but the last, each a whole sentence. */
  ghost function SaidSentences(parts: seq<Text>, first: bool): seq<Text> {
    if |parts| <= 1 then [] else SaidSentence(parts[0], first) + SaidSentences(parts[1..], false)
  }

  /** What is left when the reply ends. */
  ghost function SaidRest(s: Text): seq<Text> {
    if AllSpace(s) then [] else Said(Strip(s))
  }

  lemma FinalizeIsSaid(s: Text)
    requires NulFree(s)
    ensures FinalizeSentence(s) == Said(s)
  {
    hide Words, Strip, CutAtBreaks, SplitIntoClauses;
    ClausesExactly(s);
  }

  lemma {:induction false} WordsAreWords(s: Text)
    ensures forall i | 0 <= i < |Words(s)| :: IsWord(Words(s)[i])
  {
    hide Words;
    var gaps := WordsWeave(s);
  }

  lemma EmitIsSaid(s: Text, firstEmitted: bool)
    requires NulFree(s)
    ensures Emit(s, firstEmitted) == SaidSentence(s, !firstEmitted)
  {
    hide Words, Strip, Join, FinalizeSentence, Said, IsWord;
    FinalizeIsSaid(s);
    if !firstEmitted && |Words(s)| > 10 {
      WordsAreWords(s);
      WordsNulFree(s);
      JoinIsTrimmed(Words(s)[..10]);
      JoinNulFree(Words(s)[10..]);
      FinalizeIsSaid(Join(Words(s)[10..]));
    }
  }

  lemma SentencesStep(s: Text)
    requires SentenceLength(s) > 0
    ensures var n := SentenceLength(s); var later := Sentences(s[n..]);
      && Sentences(s)[0] == s[..n] && Sentences(s)[1..] == later && |Sentences(s)| > 1
  {
    hide SentenceLength, Sentences, CutAtEnds;
    FirstSentence(s);
    assert Sentences(s[SentenceLength(s)..]) != [] by { NotEmpty(s[SentenceLength(s)..]); }
  }

  lemma NotEmpty(s: Text)
    ensures Sentences(s) != []
  {
  }

  /** Whatever was held, the whole sentences of it and the delta are said, and the rest is held. */
  lemma {:induction false} DrainSays(st: Stream)
    requires NulFree(st.buffer)
    ensures var parts := Sentences(st.buffer);
      && Drain(st).chunks == st.chunks + SaidSentences(parts, !st.firstEmitted)
      && Drain(st).buffer == parts[|parts| - 1]
      && Drain(st).firstEmitted == (st.firstEmitted || |parts| > 1)
    decreases |st.buffer|
  {
    hide SentenceLength, Sentences, SaidSentence, Emit, CutAtEnds;
    var n := SentenceLength(st.buffer);
    if n == 0 {
      FirstSentence(st.buffer);
      assert st.chunks + [] == st.chunks;
    } else {
      var sentence, rest := st.buffer[..n], st.buffer[n..];
      assert st.buffer == sentence + rest;
      NulFreeParts(sentence, rest);
      EmitIsSaid(sentence, st.firstEmitted);
      SentencesStep(st.buffer);
      DrainSays(Stream(rest, true, st.chunks + Emit(sentence, st.firstEmitted)));
      Group(st.chunks, SaidSentence(sentence, !st.firstEmitted), SaidSentences(Sentences(rest), false));
    }
  }

  lemma Group(a: seq<Text>, b: seq<Text>, c: seq<Text>)
    ensures (a + b) + c == a + (b + c)
  {
  }

  /** One delta: every sentence it completes is said at once, in order, and only what follows the last is held. */
  lemma DeltaExactly(st: Stream, delta: Text)
    requires NulFree(st.buffer + delta)
    ensures var parts := Sentences(st.buffer + delta);
      Feed(st, delta) == Stream(parts[|parts| - 1], st.firstEmitted || |parts| > 1,
                                st.chunks + SaidSentences(parts, !st.firstEmitted))
  {
    hide Drain, Sentences, SaidSentences;
    NotEmpty(st.buffer + delta);
    DrainSays(st.(buffer := st.buffer + delta));
  }

  lemma WholeTextExactly(s: Text)
    requires NulFree(s)
    ensures var parts := Sentences(s); var st := Feed(INITIAL_STREAM, s);
      && parts != []
      && st.chunks == SaidSentences(parts, true)
      && Flush(st) == SaidSentences(parts, true) + SaidRest(parts[|parts| - 1])
  {
    hide Sentences, SaidSentences, Strip, FinalizeSentence, Feed, Flush, NulFree, SaidRest;
    var parts := Sentences(s);
    assert [] + s == s && [] + SaidSentences(parts, true) == SaidSentences(parts, true);
    DeltaExactly(INITIAL_STREAM, s);
    RestSaid(s);
    FlushSays(Feed(INITIAL_STREAM, s));
  }

  lemma FlushSays(st: Stream)
    requires if Strip(st.buffer) == [] then SaidRest(st.buffer) == []
      else SaidRest(st.buffer) == FinalizeSentence(Strip(st.buffer))
    ensures Flush(st) == st.chunks + SaidRest(st.buffer)
  {
    hide Strip, FinalizeSentence, SaidRest;
    assert st.chunks + [] == st.chunks;
  }

  /**
   A reply that is not cut after a decimal point: while it streams, its whole sentences
   have been said, and at its end also what follows the last of them.
   */
  lemma ReplyExactly(deltas: seq<Text>)
    requires NulFree(Concat(deltas)) && forall i | 0 <= i <= |deltas| :: !BadCut(deltas, i)
    ensures var parts := Sentences(Concat(deltas));
      && parts != []
      && FeedAll(INITIAL_STREAM, deltas).chunks == SaidSentences(parts, true)
      && Chunks(deltas) == SaidSentences(parts, true) + SaidRest(parts[|parts| - 1])
  {
    hide BadCut, Sentences, SaidSentences, Feed, FeedAll, Flush, Concat, NulFree, SaidRest;
    GoodCutsAreInvisibleFromStart(deltas);
    WholeTextExactly(Concat(deltas));
  }

  lemma RestSaid(s: Text)
    requires NulFree(s)
    ensures Sentences(s) != []
    ensures var rest := Sentences(s)[|Sentences(s)| - 1];
      if Strip(rest) == [] then SaidRest(rest) == [] else SaidRest(rest) == FinalizeSentence(Strip(rest))
  {
    hide Drain, Sentences, FinalizeSentence, Said, Strip;
    NotEmpty(s);
    var rest := Sentences(s)[|Sentences(s)| - 1];
    DrainKeeps(Stream(s, false, []));
    DrainSays(Stream(s, false, []));
    StripNulFree(rest);
    FinalizeIsSaid(Strip(rest));
    StripOfBlank(rest);
  }

  lemma StripOfBlank(s: Text)
    ensures Strip(s) == [] <==> AllSpace(s)
  {
    var n := SpanSpace(s);
    if n < |s| {
      assert s[n..][0] == s[n];
    }
  }
}
