/**
 What output validation takes out of a reply, said of the characters alone: script elements, then tags, then the
 marker, each found from the left and as short as it can be; and what is made of the text that remains.
 */
module CleanText {
  import opened Numbers
  import opened Text
  import opened MarkerDeletion
  import opened OutputValidation

  // ---------------------------------------------------------------------------
  // What is taken out

  /** A letter of "script" in either case, as Unicode knows it: long s, dotted and dotless i. */
  predicate SameLetter(c: Sym, l: char) {
    c.Letter?
    && (c.cp == l as int || c.cp == l as int - 32 || (l == 's' && c.cp == 383) || (l == 'i' && c.cp in {304, 305}))
  }

  predicate ScriptAt(s: Text, i: nat) {
    i + 6 <= |s| && forall k | 0 <= k < 6 :: SameLetter(s[i + k], "script"[k])
  }

  /** `<`, spaces, the name up to the end of the word, anything, `>`. */
  ghost predicate OpensScript(s: Text) {
    exists i: nat :: OpensAt(s, i)
  }

  predicate OpensAt(s: Text, i: nat) {
    && 1 <= i && i + 6 < |s| && s[0] == Mark(60) && AllSpace(s[1..i]) && ScriptAt(s, i)
    && !s[i + 6].Letter? && !s[i + 6].Digit? && s[|s| - 1] == Mark(62)
  }

  /** `<`, a slash and the name with spaces around them, `>`. */
  ghost predicate ClosesScript(s: Text) {
    exists i: nat, j: nat :: ClosesAt(s, i, j)
  }

  predicate ClosesAt(s: Text, i: nat, j: nat) {
    && 1 <= i < j && j + 6 < |s| && s[0] == Mark(60) && AllSpace(s[1..i]) && s[i] == Mark(47)
    && AllSpace(s[i + 1..j]) && ScriptAt(s, j) && AllSpace(s[j + 6..|s| - 1]) && s[|s| - 1] == Mark(62)
  }

  /** An opening tag, anything, a closing tag. */
  ghost predicate IsScript(s: Text) {
    exists i: nat, j: nat | i <= j <= |s| :: OpensScript(s[..i]) && ClosesScript(s[j..])
  }

  /** `<`, something without `>`, `>`. */
  predicate IsTag(s: Text) {
    && |s| >= 3 && s[0] == Mark(60) && s[|s| - 1] == Mark(62)
    && forall k | 0 < k < |s| - 1 :: s[k] != Mark(62)
  }

  predicate IsMarker(s: Text) {
    s == Lift("[" + "This reply was verified" + " via search_company_knowledge.]")
  }

  /** Length of the shortest match at the head of the text among those longer than n, 0 if there is none. */
  ghost function ShortestMatch(s: Text, matches: Text -> bool, n: nat): (m: nat)
    requires n <= |s|
    ensures m <= |s|
    decreases |s| - n
  {
    if n == |s| then 0 else if matches(s[..n + 1]) then n + 1 else ShortestMatch(s, matches, n + 1)
  }

  /** The text without its matches, which are found from the left. */
  ghost function Without(s: Text, matches: Text -> bool): Text
    decreases |s|
  {
    if s == [] then []
    else
      var n := ShortestMatch(s, matches, 0);
      if n > 0 then Without(s[n..], matches) else [s[0]] + Without(s[1..], matches)
  }

  predicate Shortest(s: Text, matches: Text -> bool, m: nat) {
    && m <= |s| && (m > 0 ==> matches(s[..m]))
    && forall k | 0 < k <= |s| && (m == 0 || k < m) :: !matches(s[..k])
  }

  lemma {:induction false} ShortestIs(s: Text, matches: Text -> bool, m: nat, n: nat)
    requires n <= |s| && Shortest(s, matches, m) && (m == 0 || n < m)
    ensures ShortestMatch(s, matches, n) == m
    decreases |s| - n
  {
    if n < |s| && !matches(s[..n + 1]) {
      ShortestIs(s, matches, m, n + 1);
    }
  }

  // Tags and the marker

  lemma TagIsShortest(s: Text)
    ensures Shortest(s, IsTag, TagLength(s))
  {
    var n := TagLength(s);
    if n > 0 {
      forall k | 0 < k < n - 1
        ensures s[k] != Mark(62)
      {
        assert s[k] == s[1..][k - 1];
      }
    }
    forall k | 0 < k <= |s| && (n == 0 || k < n)
      ensures !IsTag(s[..k])
    {
      if k >= 3 && s[0] == Mark(60) && s[k - 1] == Mark(62) {
        assert s[1..][k - 2] == s[k - 1];
        var inner := IndexOf(s[1..], GT);
        assert inner <= k - 2;
        assert s[..k][1 + inner] == s[1..][inner];
      }
    }
  }

  lemma {:induction false} TagsExactly(s: Text)
    ensures RemoveTags(s) == Without(s, IsTag)
    decreases |s|
  {
    hide TagLength, IsTag;
    if s != [] {
      TagIsShortest(s);
      ShortestIs(s, IsTag, TagLength(s), 0);
      TagsExactly(if TagLength(s) > 0 then s[TagLength(s)..] else s[1..]);
    }
  }

  /** The marker as the code has it is the literal one. */
  lemma MarkerIs()
    ensures IsMarker(TOOL_VERIFIED_MARKER) && TOOL_VERIFIED_MARKER != []
  {
  }

  lemma MarkerIsShortest(s: Text)
    ensures Shortest(s, IsMarker, if TOOL_VERIFIED_MARKER <= s then |TOOL_VERIFIED_MARKER| else 0)
  {
    MarkerIs();
    var m := TOOL_VERIFIED_MARKER;
    hide TOOL_VERIFIED_MARKER;
    assert IsMarker(m);
    forall k | 0 < k <= |s| && s[..k] == m
      ensures m <= s && k == |m|
    {
    }
  }

  lemma {:induction false} MarkersExactly(s: Text)
    ensures Delete(TOOL_VERIFIED_MARKER, s) == Without(s, IsMarker)
    decreases |s|
  {
    hide TOOL_VERIFIED_MARKER, IsMarker;
    MarkerIs();
    if s != [] {
      MarkerIsShortest(s);
      var m := if TOOL_VERIFIED_MARKER <= s then |TOOL_VERIFIED_MARKER| else 0;
      ShortestIs(s, IsMarker, m, 0);
      MarkersExactly(if m > 0 then s[m..] else s[1..]);
    }
  }

  // Script elements

  lemma SpanIs(s: Text, i: nat, j: nat)
    requires i <= j <= |s| && AllSpace(s[i..j]) && (j < |s| ==> !s[j].Space?)
    ensures i + SpanSpace(s[i..]) == j
  {
    var n := SpanSpace(s[i..]);
    assert forall k | 0 <= k < j - i :: s[i..][k] == s[i..j][k];
    assert j < |s| ==> s[i..][j - i] == s[j];
  }

  lemma SaysIs(s: Text, i: nat)
    requires i <= |s|
    ensures SaysScript(s[i..]) <==> ScriptAt(s, i)
  {
    var t := s[i..];
    if i + 6 <= |s| {
      assert t[0] == s[i + 0] && t[1] == s[i + 1] && t[2] == s[i + 2];
      assert t[3] == s[i + 3] && t[4] == s[i + 4] && t[5] == s[i + 5];
      if ScriptAt(s, i) {
        assert SameLetter(s[i + 0], "script"[0]) && SameLetter(s[i + 1], "script"[1]);
        assert SameLetter(s[i + 2], "script"[2]) && SameLetter(s[i + 3], "script"[3]);
        assert SameLetter(s[i + 4], "script"[4]) && SameLetter(s[i + 5], "script"[5]);
      }
    }
  }

  lemma ScriptIsLetter(s: Text, i: nat)
    requires ScriptAt(s, i)
    ensures s[i].Letter?
  {
    assert SameLetter(s[i + 0], "script"[0]);
  }

  lemma SpanIsSpace(s: Text, i: nat)
    requires i <= |s|
    ensures var j := i + SpanSpace(s[i..]); AllSpace(s[i..j]) && (j < |s| ==> !s[j].Space?)
  {
    var j := i + SpanSpace(s[i..]);
    assert forall k | 0 <= k < j - i :: s[i..j][k] == s[i..][k];
    assert j < |s| ==> s[j] == s[i..][j - i];
  }

  /** The stages of a closing tag: spaces up to the slash at i, to the name at j, to the end at e. */
  predicate CloseStages(s: Text, i: nat, j: nat, e: nat) {
    && s != [] && s[0] == LT
    && i == 1 + SpanSpace(s[1..]) < |s| && s[i] == Mark(47)
    && j == i + 1 + SpanSpace(s[i + 1..]) && SaysScript(s[j..])
    && e == j + 6 + SpanSpace(s[j + 6..]) < |s| && s[e] == GT
  }

  lemma CloseLengthIs(s: Text, i: nat, j: nat, e: nat)
    requires CloseStages(s, i, j, e)
    ensures CloseScriptLength(s) == e + 1
  {
    hide SaysScript;
  }

  lemma CloseLengthMeans(s: Text) returns (i: nat, j: nat, e: nat)
    requires CloseScriptLength(s) > 0
    ensures CloseStages(s, i, j, e) && CloseScriptLength(s) == e + 1
  {
    i := 1 + SpanSpace(s[1..]);
    j := i + 1 + SpanSpace(s[i + 1..]);
    e := j + 6 + SpanSpace(s[j + 6..]);
  }

  lemma StagesAreParts(s: Text, i: nat, j: nat, e: nat)
    requires CloseStages(s, i, j, e)
    ensures ClosesAt(s[..e + 1], i, j)
  {
    hide SaysScript, ScriptAt, AllSpace, SpanSpace;
    SaysIs(s, j);
    ScriptFits(s, j);
    SameScript(s, e + 1, j);
    SpaceSlice(s, e + 1, 1, i);
    SpaceSlice(s, e + 1, i + 1, j);
    SpaceSlice(s, e + 1, j + 6, e);
  }

  lemma SpaceSlice(s: Text, m: nat, i: nat, j: nat)
    requires j <= m <= |s| && i <= |s| && j == i + SpanSpace(s[i..])
    ensures AllSpace(s[..m][i..j])
  {
    SpanIsSpace(s, i);
    assert s[..m][i..j] == s[i..j];
  }

  lemma ScriptFits(s: Text, j: nat)
    requires ScriptAt(s, j)
    ensures j + 6 <= |s|
  {
  }

  lemma PartsAreStages(s: Text, m: nat, i: nat, j: nat)
    requires m <= |s| && ClosesAt(s[..m], i, j)
    ensures CloseStages(s, i, j, m - 1)
  {
    hide SaysScript, ScriptAt, AllSpace, SpanSpace;
    ScriptIsLetter(s[..m], j);
    SliceSpan(s, m, 1, i);
    SliceSpan(s, m, i + 1, j);
    SliceSpan(s, m, j + 6, m - 1);
    SameScript(s, m, j);
    SaysIs(s, j);
  }

  lemma SliceSpan(s: Text, m: nat, i: nat, j: nat)
    requires i <= j < m <= |s| && AllSpace(s[..m][i..j]) && !s[..m][j].Space?
    ensures i + SpanSpace(s[i..]) == j
  {
    assert s[..m][i..j] == s[i..j];
    SpanIs(s, i, j);
  }

  /** A closing tag is found exactly where one stands, whole. */
  lemma CloseIs(s: Text, m: nat)
    requires m <= |s| && ClosesScript(s[..m])
    ensures CloseScriptLength(s) == m > 0
  {
    hide ClosesAt, CloseStages, CloseScriptLength;
    var i: nat, j: nat :| ClosesAt(s[..m], i, j);
    NotEmptyTag(s[..m], i, j);
    PartsAreStages(s, m, i, j);
    CloseLengthIs(s, i, j, m - 1);
  }

  lemma NotEmptyTag(t: Text, i: nat, j: nat)
    requires ClosesAt(t, i, j)
    ensures t != []
  {
  }

  lemma SameScript(s: Text, m: nat, j: nat)
    requires m <= |s| && j + 6 <= m
    ensures ScriptAt(s[..m], j) <==> ScriptAt(s, j)
  {
    forall k | 0 <= k < 6
      ensures SameLetter(s[..m][j + k], "script"[k]) <==> SameLetter(s[j + k], "script"[k])
    {
    }
  }

  lemma CloseFound(s: Text)
    requires CloseScriptLength(s) > 0
    ensures ClosesScript(s[..CloseScriptLength(s)])
    ensures forall k | 0 < k < CloseScriptLength(s) :: s[k] != LT
  {
    hide ClosesAt, CloseStages, CloseScriptLength;
    var i, j, e := CloseLengthMeans(s);
    StagesAreParts(s, i, j, e);
    forall k | 0 < k < CloseScriptLength(s)
      ensures s[k] != LT
    {
      CloseCharacters(s[..e + 1], i, j, k);
    }
  }

  lemma CloseCharacters(t: Text, i: nat, j: nat, k: nat)
    requires ClosesAt(t, i, j) && 0 < k < |t|
    ensures t[k] != LT
  {
    if k < i {
      assert t[1..i][k - 1] == t[k];
    } else if i < k < j {
      assert t[i + 1..j][k - i - 1] == t[k];
    } else if j <= k < j + 6 {
      assert SameLetter(t[j + (k - j)], "script"[k - j]);
    } else if j + 6 <= k < |t| - 1 {
      assert t[j + 6..|t| - 1][k - j - 6] == t[k];
    }
  }

  /** The first closing tag ends before any other does. */
  lemma {:induction false} ToCloseLeast(s: Text, k: nat)
    requires k <= |s| && CloseScriptLength(s[k..]) > 0
    ensures 0 < ToCloseScript(s) <= k + CloseScriptLength(s[k..])
    decreases k
  {
    hide CloseScriptLength;
    if k == 0 {
      assert s[0..] == s;
    } else {
      assert s[1..][k - 1..] == s[k..];
      ToCloseLeast(s[1..], k - 1);
      if CloseScriptLength(s) > 0 {
        CloseFound(s);
        CloseStarts(s[k..]);
        assert s[k..][0] == s[k];
      }
    }
  }

  lemma CloseStarts(s: Text)
    requires CloseScriptLength(s) > 0
    ensures s != [] && s[0] == LT
  {
  }

  lemma {:induction false} ToCloseFound(s: Text) returns (k: nat)
    requires ToCloseScript(s) > 0
    ensures k < ToCloseScript(s) && ClosesScript(s[k..ToCloseScript(s)])
  {
    hide CloseScriptLength, ClosesScript;
    if CloseScriptLength(s) > 0 {
      k := 0;
      CloseFound(s);
      assert s[0..CloseScriptLength(s)] == s[..CloseScriptLength(s)];
    } else {
      var n := ToCloseFound(s[1..]);
      k := n + 1;
      assert s[k..ToCloseScript(s)] == s[1..][n..ToCloseScript(s[1..])];
    }
  }

  /** The opening tag at the head, if there is one, is no longer than any other. */
  lemma OpenLeast(s: Text, m: nat)
    requires m <= |s| && OpensScript(s[..m])
    ensures 0 < OpenScriptLength(s) <= m
  {
    hide SaysScript, ScriptAt, AllSpace;
    var i: nat :| OpensAt(s[..m], i);
    ScriptIsLetter(s[..m], i);
    SliceSpan(s, m, 1, i);
    SameScript(s, m, i);
    SaysIs(s, i);
    assert s[i + 6..][m - 1 - (i + 6)] == s[m - 1] == GT;
  }

  lemma OpenFound(s: Text)
    requires OpenScriptLength(s) > 0
    ensures OpensScript(s[..OpenScriptLength(s)])
  {
    hide SaysScript, ScriptAt, AllSpace;
    var i := 1 + SpanSpace(s[1..]);
    var m := OpenScriptLength(s);
    SpaceSlice(s, m, 1, i);
    SaysIs(s, i);
    SameScript(s, m, i);
    assert s[m - 1] == s[i + 6..][m - 1 - (i + 6)];
    assert OpensAt(s[..m], i);
  }

  function ScriptLength(s: Text): (n: nat)
    ensures n <= |s|
  {
    var open := OpenScriptLength(s);
    var body := ToCloseScript(s[open..]);
    if open > 0 && body > 0 then open + body else 0
  }

  lemma ScriptIsShortest(s: Text)
    ensures Shortest(s, IsScript, ScriptLength(s))
  {
    hide OpenScriptLength, ToCloseScript, OpensScript, ClosesScript;
    var n, open := ScriptLength(s), OpenScriptLength(s);
    if n > 0 {
      OpenFound(s);
      var k := ToCloseFound(s[open..]);
      OpenedAndClosed(s, n, open, open + k);
    }
    forall m | 0 < m <= |s| && IsScript(s[..m])
      ensures 0 < n <= m
    {
      ScriptNoShorter(s, m);
    }
  }

  lemma OpenedAndClosed(s: Text, n: nat, i: nat, j: nat)
    requires i <= j <= n <= |s| && OpensScript(s[..i]) && ClosesScript(s[i..][j - i..n - i])
    ensures IsScript(s[..n])
  {
    hide OpensScript, ClosesScript;
    assert s[..n][..i] == s[..i];
    assert s[..n][j..] == s[i..][j - i..n - i];
  }

  lemma ScriptNoShorter(s: Text, m: nat)
    requires m <= |s| && IsScript(s[..m])
    ensures 0 < ScriptLength(s) <= m
  {
    hide OpenScriptLength, ToCloseScript, OpensScript, ClosesScript, CloseScriptLength;
    var t := s[..m];
    var i: nat, j: nat :| i <= j <= |t| && OpensScript(t[..i]) && ClosesScript(t[j..]);
    var open := OpenScriptLength(s);
    assert t[..i] == s[..i];
    OpenLeast(s, i);
    assert t[j..] == s[j..][..m - j];
    CloseIs(s[j..], m - j);
    assert s[open..][j - open..] == s[j..];
    ToCloseLeast(s[open..], j - open);
  }

  lemma {:induction false} ScriptsExactly(s: Text)
    ensures RemoveScripts(s) == Without(s, IsScript)
    decreases |s|
  {
    hide OpenScriptLength, ToCloseScript, IsScript;
    if s != [] {
      ScriptIsShortest(s);
      ShortestIs(s, IsScript, ScriptLength(s), 0);
      ScriptsExactly(if ScriptLength(s) > 0 then s[ScriptLength(s)..] else s[1..]);
    }
  }

  // ---------------------------------------------------------------------------
  // What is left

  /** The text without script elements, tags and markers, taken out in this order. */
  ghost function Left(s: Text): Text {
    Without(Without(Without(s, IsScript), IsTag), IsMarker)
  }

  lemma LeftExactly(s: Text)
    ensures Cleaned(s) == Left(s)
  {
    hide RemoveScripts, RemoveTags, Delete, Without, TOOL_VERIFIED_MARKER, IsScript, IsTag, IsMarker;
    ScriptsExactly(s);
    TagsExactly(RemoveScripts(s));
    MarkersExactly(RemoveTags(RemoveScripts(s)));
  }

  /** The text from k on, without the newlines that another one precedes. */
  function OneNewline(s: Text, k: nat): Text
    requires k <= |s|
    decreases |s| - k
  {
    if k == |s| then []
    else (if k > 0 && s[k - 1] == Space(10) && s[k] == Space(10) then [] else [s[k]]) + OneNewline(s, k + 1)
  }

  lemma {:induction false} OneNewlineLater(s: Text, k: nat)
    requires 0 < k <= |s|
    ensures OneNewline(s, k) == if k < |s| && s[k - 1] == Space(10) && s[k] == Space(10) then OneNewline(s[k..], 0)[1..]
      else OneNewline(s[k..], 0)
    ensures k < |s| ==> OneNewline(s[k..], 0) != [] && OneNewline(s[k..], 0)[0] == s[k]
    decreases |s| - k
  {
    if k < |s| {
      OneNewlineLater(s, k + 1);
      OneNewlineLater(s[k..], 1);
      assert s[k..][1..] == s[k + 1..];
    }
  }

  lemma {:induction false} CollapseExactly(s: Text)
    ensures CollapseNewlines(s) == OneNewline(s, 0)
  {
    if s != [] {
      CollapseExactly(s[1..]);
      OneNewlineLater(s, 1);
    }
  }

  /** One of the two headings of the system prompt occurs in the text. */
  ghost predicate SaysHeading(s: Text) {
    Occurs(Lift("IDENTITY & SCOPE"), s) || Occurs(Lift("LANGUAGE PRESERVATION (non-negotiable)"), s)
  }

  /**
   A whole reply: refused exactly if a heading occurs in it as it came; else what is left of it, with one newline for
   several, trimmed.
   */
  lemma SanitizeExactly(s: Text)
    ensures SanitizeLlmOutput(s) == if SaysHeading(s) then Refused else Clean(Strip(OneNewline(Left(s), 0)))
  {
    hide Cleaned, Left, Occurs, Strip;
    LeftExactly(s);
    CollapseExactly(Cleaned(s));
  }

  /** A `<` after which there is neither another nor a `>`. */
  predicate UnclosedAt(s: Text, i: nat) {
    i < |s| && s[i] == Mark(60) && forall k | i < k < |s| :: s[k] != Mark(60) && s[k] != Mark(62)
  }

  lemma HoldBackIs()
    ensures HOLD_BACK == 54
  {
    assert |MARKER_TEXT_START| == 23 && |MARKER_TEXT_END| == 31;
  }

  lemma LastOpenIs(s: Text)
    ensures var open := FromLastOpen(s);
      if open > 0 && GT !in s[|s| - open..] then UnclosedAt(s, |s| - open) else forall i: nat :: !UnclosedAt(s, i)
    ensures forall i: nat | UnclosedAt(s, i) :: FromLastOpen(s) == |s| - i
  {
    var open := FromLastOpen(s);
    forall i: nat | UnclosedAt(s, i)
      ensures open == |s| - i && GT !in s[|s| - open..]
    {
      assert s[i] in s;
      assert open == |s| - i;
      assert forall k | 0 < k < open :: s[i..][k] == s[i + k];
    }
    if open > 0 && GT !in s[|s| - open..] {
      forall k | |s| - open < k < |s|
        ensures s[k] != Mark(62)
      {
        assert s[k] == s[|s| - open..][k - (|s| - open)];
      }
    }
  }

  /**
   One call on a stream: it leaks exactly if a heading occurs in what is left of the buffer. Else all of that is
   released but the last 54 characters, or more if a tag is open there: then everything from its `<` on is kept.
   */
  lemma ScreenExactly(buffered: Text)
    ensures var left := Left(buffered); var r := StreamSafeSanitize(buffered);
      && (r.Leak? <==> SaysHeading(left))
      && (r.Pass? ==> r.safe + r.tail == left)
      && (r.Pass? && (forall i: nat :: !UnclosedAt(left, i)) ==> |r.tail| == if |left| < 54 then |left| else 54)
      && (forall i: nat | r.Pass? && UnclosedAt(left, i) ::
            |r.tail| == if |left| < 54 then |left| else Max(54, |left| - i))
  {
    hide Cleaned, Left, Occurs, HOLD_BACK;
    LeftExactly(buffered);
    HoldBackIs();
    LastOpenIs(Cleaned(buffered));
  }

  /** Different literals are different texts. */
  lemma LiftExactly(a: string, b: string)
    ensures Lift(a) == Lift(b) <==> a == b
  {
    if Lift(a) == Lift(b) {
      forall i | 0 <= i < |a|
        ensures a[i] == b[i]
      {
        assert FromChar(a[i]) == Lift(a)[i] == Lift(b)[i] == FromChar(b[i]);
        SameCharacter(a[i], b[i]);
      }
    }
  }

  lemma SameCharacter(c: char, d: char)
    requires FromChar(c) == FromChar(d)
    ensures c == d
  {
  }
}
