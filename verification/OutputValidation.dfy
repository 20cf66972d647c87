/**
 Output validation (security/output_validation.py): what is removed from a reply
 before the user sees it, as one pass over a whole reply (`SanitizeLlmOutput`)
 and piece by piece over a stream (`StreamSafeSanitize`).
 */
module OutputValidation {
  import opened Numbers
  import opened Text
  import opened MarkerDeletion
  import opened MarkerStream

  // ---------------------------------------------------------------------------
  // ASCII literals as text

  function FromChar(c: char): Sym {
    if c == '\0' then Nul
    else if '0' <= c <= '9' then Digit(c as nat)
    else if c == ' ' || c == '\t' || c == '\n' || c == '\r' then Space(c as nat)
    else if c == ',' then Comma
    else if c == '.' then Dot
    else if c == '!' || c == '?' then Stop(c as nat)
    else if c == '$' then Currency(c as nat)
    else if 'a' <= c <= 'z' || 'A' <= c <= 'Z' || c == '_' then Letter(c as nat)
    else Mark(c as nat)
  }

  function Lift(s: string): (t: Text)
    ensures |t| == |s|
    ensures forall i | 0 <= i < |s| :: t[i] == FromChar(s[i])
  {
    seq(|s|, i requires 0 <= i < |s| => FromChar(s[i]))
  }

  const LT := Mark(60)
  const GT := Mark(62)
  const NEWLINE := Space(10)

  const MARKER_TEXT_START := "This reply was verified"
  const MARKER_TEXT_END := " via search_company_knowledge.]"
  const MARKER_TEXT := "[" + MARKER_TEXT_START + MARKER_TEXT_END
  const TOOL_VERIFIED_MARKER := Lift(MARKER_TEXT)

  const SCOPE_HEADING := Lift("IDENTITY & SCOPE")
  const LANGUAGE_HEADING := Lift("LANGUAGE PRESERVATION (non-negotiable)")
  const REFUSAL_TEXT_START := "I can't share my internal instructions,"
  const REFUSAL_TEXT_END := " but I'm happy to help with your question."
  const LEAK_REFUSAL := Lift(REFUSAL_TEXT_START + REFUSAL_TEXT_END)

  const HOLD_BACK: nat := Max(|TOOL_VERIFIED_MARKER| - 1, Max(|SCOPE_HEADING|, |LANGUAGE_HEADING|) - 1)

  predicate Without(s: string, cs: set<char>) {
    forall i | 0 <= i < |s| :: s[i] !in cs
  }

  /** The bracket opens the marker and occurs nowhere else in it; angle brackets do not occur at all. */
  lemma MarkerHeadOnce()
    ensures HeadOnce(TOOL_VERIFIED_MARKER) && LT !in TOOL_VERIFIED_MARKER && GT !in TOOL_VERIFIED_MARKER
  {
    MarkerPieces();
    hide MARKER_TEXT_START, MARKER_TEXT_END;
    Bracketed(MARKER_TEXT_START, MARKER_TEXT_END);
  }

  lemma MarkerPieces()
    ensures Without(MARKER_TEXT_START, {'[', '<', '>'}) && Without(MARKER_TEXT_END, {'[', '<', '>'})
  {
  }

  lemma Bracketed(a: string, b: string)
    requires Without(a, {'[', '<', '>'}) && Without(b, {'[', '<', '>'})
    ensures HeadOnce(Lift("[" + a + b))
    ensures LT !in Lift("[" + a + b) && GT !in Lift("[" + a + b)
  {
    var m := "[" + a + b;
    assert m[0] == '[';
    forall i | 1 <= i < |m| ensures m[i] !in {'[', '<', '>'} {
      if i - 1 < |a| {
        assert m[i] == a[i - 1];
      } else {
        assert m[i] == b[i - 1 - |a|];
      }
    }
  }

  /**
   The tool-verified marker, nested in itself: two cuts of one text of which one shows a
   marker and one shows nothing.
   */
  lemma NestedToolMarker() returns (deltas: seq<Text>, others: seq<Text>)
    ensures Concat(deltas) == Concat(others)
    ensures Output(TOOL_VERIFIED_MARKER, deltas) == []
    ensures Output(TOOL_VERIFIED_MARKER, others) == Delete(TOOL_VERIFIED_MARKER, Concat(others))
      == TOOL_VERIFIED_MARKER != []
  {
    MarkerHeadOnce();
    MarkerIsLong();
    var m := TOOL_VERIFIED_MARKER;
    hide TOOL_VERIFIED_MARKER, Output, Delete;
    NestedMarkerNeedsCare(m);
    deltas, others := [[m[0]] + m, m[1..]], [[m[0]] + m + m[1..]];
  }

  lemma MarkerIsLong()
    ensures |TOOL_VERIFIED_MARKER| >= 2
  {
  }

  // ---------------------------------------------------------------------------
  // Markup

  /** `[^c]*` up to the first c: its length, or |s| when there is no c. */
  function IndexOf(s: Text, c: Sym): (n: nat)
    ensures n <= |s|
    ensures n < |s| ==> s[n] == c
    ensures forall k | 0 <= k < n :: s[k] != c
  {
    if s == [] || s[0] == c then 0 else 1 + IndexOf(s[1..], c)
  }

  /** Letters of the word "script" as a case-insensitive Unicode match knows them. */
  predicate IsLetter(c: Sym, cps: set<nat>) {
    c.Letter? && c.cp in cps
  }

  predicate SaysScript(s: Text) {
    && |s| >= 6
    && IsLetter(s[0], {0x53, 0x73, 0x17F})
    && IsLetter(s[1], {0x43, 0x63})
    && IsLetter(s[2], {0x52, 0x72})
    && IsLetter(s[3], {0x49, 0x69, 0x130, 0x131})
    && IsLetter(s[4], {0x50, 0x70})
    && IsLetter(s[5], {0x54, 0x74})
  }

  /** `<\s*script\b.*?>`, by its length; 0 for no match. */
  function OpenScriptLength(s: Text): (n: nat)
    ensures n <= |s| && (n > 0 ==> s[0] == LT)
  {
    if s == [] || s[0] != LT then 0
    else
      var at := 1 + SpanSpace(s[1..]);
      if !SaysScript(s[at..]) || (at + 6 < |s| && WordChar(s[at + 6])) then 0
      else
        var close := at + 6 + IndexOf(s[at + 6..], GT);
        if close == |s| then 0 else close + 1
  }

  /** A closing script tag, spaces allowed around the slash and the name; 0 for no match. */
  function CloseScriptLength(s: Text): (n: nat)
    ensures n <= |s| && (n > 0 ==> s[0] == LT)
  {
    if s == [] || s[0] != LT then 0
    else
      var slash := 1 + SpanSpace(s[1..]);
      if slash == |s| || s[slash] != Mark(47) then 0
      else
        var word := slash + 1 + SpanSpace(s[slash + 1..]);
        if !SaysScript(s[word..]) then 0
        else
          var end := word + 6 + SpanSpace(s[word + 6..]);
          if end == |s| || s[end] != GT then 0 else end + 1
  }

  /** `.*?` up to and with the first closing script tag; 0 for none. */
  function ToCloseScript(s: Text): (n: nat)
    ensures n <= |s|
  {
    if s == [] then 0
    else if CloseScriptLength(s) > 0 then CloseScriptLength(s)
    else if ToCloseScript(s[1..]) > 0 then 1 + ToCloseScript(s[1..])
    else 0
  }

  /** _SCRIPT_TAG.sub("", s) */
  function RemoveScripts(s: Text): Text
    decreases |s|
  {
    if s == [] then []
    else
      var open := OpenScriptLength(s);
      var body := ToCloseScript(s[open..]);
      if open > 0 && body > 0 then RemoveScripts(s[open + body..])
      else [s[0]] + RemoveScripts(s[1..])
  }

  /** `<[^>]+>`, by its length; 0 for no match. */
  function TagLength(s: Text): (n: nat)
    ensures n <= |s| && (n > 0 ==> s[0] == LT && n >= 3 && s[n - 1] == GT)
  {
    if s == [] || s[0] != LT then 0
    else
      var inner := IndexOf(s[1..], GT);
      if inner == 0 || 1 + inner == |s| then 0 else inner + 2
  }

  /** _HTML_TAG.sub("", s) */
  function RemoveTags(s: Text): Text
    decreases |s|
  {
    if s == [] then []
    else if TagLength(s) > 0 then RemoveTags(s[TagLength(s)..])
    else [s[0]] + RemoveTags(s[1..])
  }

  function Cleaned(s: Text): Text {
    Delete(TOOL_VERIFIED_MARKER, RemoveTags(RemoveScripts(s)))
  }

  /** re.sub("\n{2,}", "\n", s) */
  function CollapseNewlines(s: Text): Text {
    if s == [] then []
    else if s[0] == NEWLINE && |s| > 1 && s[1] == NEWLINE then CollapseNewlines(s[1..])
    else [s[0]] + CollapseNewlines(s[1..])
  }

  predicate Leaks(s: Text) {
    Occurs(SCOPE_HEADING, s) || Occurs(LANGUAGE_HEADING, s)
  }

  datatype Reply = Refused | Clean(text: Text)

  /** sanitize_llm_output */
  function SanitizeLlmOutput(s: Text): Reply {
    if Leaks(s) then Refused else Clean(Strip(CollapseNewlines(Cleaned(s))))
  }

  /** The last `<`, counted from the end: |s| - rfind, or 0 when there is none. */
  function FromLastOpen(s: Text): (n: nat)
    ensures n <= |s|
    ensures n > 0 ==> s[|s| - n] == LT
    ensures forall k | |s| - n < k < |s| :: s[k] != LT
    ensures n == 0 ==> LT !in s
  {
    if s == [] then 0
    else if FromLastOpen(s[1..]) > 0 then FromLastOpen(s[1..])
    else if s[0] == LT then |s|
    else 0
  }

  datatype Screened = Pass(safe: Text, tail: Text) | Leak

  /** stream_safe_sanitize; on a leak the safe text is the refusal and the tail is dropped. */
  function StreamSafeSanitize(buffered: Text): Screened {
    var cleaned := Cleaned(buffered);
    if Leaks(cleaned) then Leak
    else
      var open := FromLastOpen(cleaned);
      var holdBack := if open > 0 && GT !in cleaned[|cleaned| - open..] then Max(HOLD_BACK, open) else HOLD_BACK;
      if |cleaned| <= holdBack then Pass([], cleaned)
      else
        var splitAt := |cleaned| - holdBack;
        Pass(cleaned[..splitAt], cleaned[splitAt..])
  }

  // ---------------------------------------------------------------------------
  // No complete tag is left

  /** Every `<` either stands right before a `>` or has no `>` after it. */
  predicate Untagged(s: Text) {
    s == [] || ((s[0] == LT && |s| > 1 && s[1] != GT ==> GT !in s) && Untagged(s[1..]))
  }

  /** An untagged text has no match for the tag pattern anywhere. */
  lemma {:induction false} UntaggedHasNoTag(s: Text, i: nat)
    requires Untagged(s) && i <= |s|
    ensures TagLength(s[i..]) == 0
    decreases |s|
  {
    if i > 0 {
      UntaggedHasNoTag(s[1..], i - 1);
      assert s[1..][i - 1..] == s[i..];
    } else {
      assert s[0..] == s;
      if TagLength(s) > 0 {
        TagMeans(s);
      }
    }
  }

  lemma TagMeans(s: Text)
    requires TagLength(s) > 0
    ensures |s| > 1 && s[0] == LT && s[1] != GT && GT in s
  {
    assert s[1..][0] != GT;
  }

  lemma {:induction false} TagsGone(s: Text)
    ensures Untagged(RemoveTags(s))
    ensures GT in RemoveTags(s) ==> GT in s
    ensures s != [] && s[0] == GT ==> RemoveTags(s) != [] && RemoveTags(s)[0] == GT
    decreases |s|
  {
    if s != [] {
      var n := TagLength(s);
      if n > 0 {
        TagsGone(s[n..]);
      } else {
        TagsGone(s[1..]);
        var r := RemoveTags(s[1..]);
        assert ([s[0]] + r)[1..] == r;
        if s[0] == LT {
          OpenWithoutTag(s);
        }
      }
    }
  }

  lemma OpenWithoutTag(s: Text)
    requires s != [] && s[0] == LT && TagLength(s) == 0
    ensures (|s| > 1 && s[1] == GT) || GT !in s[1..]
  {
    var inner := IndexOf(s[1..], GT);
    if inner < |s| - 1 {
      assert inner == 0;
      assert s[1..][0] == s[1];
    }
  }

  /** The marker has no angle bracket, so deleting it cannot complete a tag. */
  lemma {:induction false} DeleteKeepsUntagged(m: Text, s: Text)
    requires m != [] && LT !in m && GT !in m && Untagged(s)
    ensures Untagged(Delete(m, s))
    ensures GT in Delete(m, s) ==> GT in s
    ensures s != [] && s[0] == GT ==> Delete(m, s) != [] && Delete(m, s)[0] == GT
    decreases |s|
  {
    if s != [] {
      if m <= s {
        assert s[0] == m[0];
        DropUntagged(s, |m|);
        DeleteKeepsUntagged(m, s[|m|..]);
      } else {
        DeleteKeepsUntagged(m, s[1..]);
        var r := Delete(m, s[1..]);
        assert ([s[0]] + r)[1..] == r;
      }
    }
  }

  lemma {:induction false} DropUntagged(s: Text, n: nat)
    requires Untagged(s) && n <= |s|
    ensures Untagged(s[n..])
    decreases n
  {
    if n == 0 {
      assert s[0..] == s;
    } else {
      DropUntagged(s[1..], n - 1);
      assert s[1..][n - 1..] == s[n..];
    }
  }

  lemma {:induction false} CollapseKeepsUntagged(s: Text)
    requires Untagged(s)
    ensures Untagged(CollapseNewlines(s))
    ensures GT in CollapseNewlines(s) ==> GT in s
    ensures s != [] && s[0] == GT ==> CollapseNewlines(s) != [] && CollapseNewlines(s)[0] == GT
    decreases |s|
  {
    if s != [] {
      CollapseKeepsUntagged(s[1..]);
      var r := CollapseNewlines(s[1..]);
      assert ([s[0]] + r)[1..] == r;
    }
  }

  lemma {:induction false} TakeUntagged(s: Text, t: Text)
    requires Untagged(s) && t <= s
    ensures Untagged(t)
    decreases |s|
  {
    if t != [] {
      assert s == t + s[|t|..];
      assert s[1..] == t[1..] + s[|t|..];
      TakeUntagged(s[1..], t[1..]);
      if t[0] == LT && |t| > 1 && t[1] != GT {
        assert s[1] == t[1];
        assert forall k | 0 <= k < |t| :: t[k] == s[k];
      }
    }
  }

  lemma CleanedIsUntagged(s: Text)
    ensures Untagged(Cleaned(s))
  {
    hide RemoveTags, RemoveScripts, Delete, Untagged;
    MarkerHeadOnce();
    TagsGone(RemoveScripts(s));
    DeleteKeepsUntagged(TOOL_VERIFIED_MARKER, RemoveTags(RemoveScripts(s)));
  }

  /** Whatever the model wrote, the sanitized reply matches the tag pattern nowhere. */
  lemma SanitizedHasNoTag(s: Text, i: nat)
    requires SanitizeLlmOutput(s).Clean? && i <= |SanitizeLlmOutput(s).text|
    ensures TagLength(SanitizeLlmOutput(s).text[i..]) == 0
  {
    hide RemoveTags, RemoveScripts, Delete, Untagged, Leaks, TagLength, Cleaned, CollapseNewlines, SpanSpace, TrimRight;
    CleanedIsUntagged(s);
    var c := CollapseNewlines(Cleaned(s));
    CollapseKeepsUntagged(Cleaned(s));
    var n := SpanSpace(c);
    DropUntagged(c, n);
    TakeUntagged(c[n..], Strip(c));
    UntaggedHasNoTag(Strip(c), i);
  }

  /** Nor does anything one call of the streaming form releases or keeps. */
  lemma ScreenedHasNoTag(buffered: Text, i: nat)
    requires StreamSafeSanitize(buffered).Pass?
    requires i <= |StreamSafeSanitize(buffered).safe + StreamSafeSanitize(buffered).tail|
    ensures TagLength((StreamSafeSanitize(buffered).safe + StreamSafeSanitize(buffered).tail)[i..]) == 0
  {
    hide Untagged, Leaks, TagLength, Cleaned;
    CleanedIsUntagged(buffered);
    var r := StreamSafeSanitize(buffered);
    assert r.safe + r.tail == Cleaned(buffered);
    UntaggedHasNoTag(Cleaned(buffered), i);
  }

  // ---------------------------------------------------------------------------
  // Text without markup and marker passes as it is

  /** No `<` and no marker. */
  predicate Plain(s: Text) {
    LT !in s && !Occurs(TOOL_VERIFIED_MARKER, s)
  }

  lemma {:induction false} NoScripts(s: Text)
    requires LT !in s
    ensures RemoveScripts(s) == s
  {
    if s != [] {
      assert s[0] in s;
      NoScripts(s[1..]);
    }
  }

  lemma {:induction false} NoTags(s: Text)
    requires LT !in s
    ensures RemoveTags(s) == s
  {
    if s != [] {
      assert s[0] in s;
      NoTags(s[1..]);
    }
  }

  lemma PlainIsClean(s: Text)
    requires Plain(s)
    ensures Cleaned(s) == s
  {
    hide RemoveTags, RemoveScripts, Delete, Occurs;
    MarkerHeadOnce();
    NoScripts(s);
    NoTags(s);
    DeleteNone(TOOL_VERIFIED_MARKER, s);
  }

  lemma OccursWithin(m: Text, a: Text, s: Text, b: Text)
    requires Occurs(m, s)
    ensures Occurs(m, a + s + b)
  {
    var i :| 0 <= i <= |s| && At(m, s, i);
    assert (a + s + b)[|a| + i..|a| + i + |m|] == s[i..i + |m|];
    assert At(m, a + s + b, |a| + i);
  }

  lemma PlainPart(a: Text, s: Text, b: Text)
    requires Plain(a + s + b)
    ensures Plain(s)
  {
    hide Occurs;
    assert forall k | 0 <= k < |s| :: s[k] == (a + s + b)[|a| + k];
    if Occurs(TOOL_VERIFIED_MARKER, s) {
      OccursWithin(TOOL_VERIFIED_MARKER, a, s, b);
    }
  }

  lemma LeaksWithin(a: Text, s: Text, b: Text)
    requires Leaks(s)
    ensures Leaks(a + s + b)
  {
    hide Occurs;
    if Occurs(SCOPE_HEADING, s) {
      OccursWithin(SCOPE_HEADING, a, s, b);
    } else {
      OccursWithin(LANGUAGE_HEADING, a, s, b);
    }
  }

  // ---------------------------------------------------------------------------
  // A stream of deltas

  /** What the user was shown so far, and the tail being held; or the refusal, for good. */
  datatype Screen = Streaming(shown: Text, tail: Text) | Stopped(shown: Text)

  function ScreenOne(st: Screen, delta: Text): Screen {
    if st.Stopped? then st
    else
      var r := StreamSafeSanitize(st.tail + delta);
      if r.Leak? then Stopped(st.shown + LEAK_REFUSAL) else Streaming(st.shown + r.safe, r.tail)
  }

  function ScreenAll(st: Screen, deltas: seq<Text>): Screen
    decreases |deltas|
  {
    if deltas == [] then st else ScreenAll(ScreenOne(st, deltas[0]), deltas[1..])
  }

  /** The screen after reading p: nothing lost, nothing leaked, and a full tail held. */
  predicate Holds(p: Text, st: Screen) {
    st.Streaming? && st.shown + st.tail == p && !Leaks(p) && |st.tail| == if |p| < HOLD_BACK then |p| else HOLD_BACK
  }

  /** A phrase that the delta completes lies in the tail and the delta. */
  lemma PhraseInTail(m: Text, shown: Text, tail: Text, d: Text)
    requires shown == [] || |m| - 1 <= |tail|
    requires !Occurs(m, shown + tail)
    ensures Occurs(m, shown + tail + d) <==> Occurs(m, tail + d)
  {
    Regroup(shown, tail, d);
    if Occurs(m, tail + d) {
      OccursWithin(m, shown, tail + d, []);
      assert shown + (tail + d) + [] == shown + (tail + d);
    }
    if Occurs(m, shown + (tail + d)) {
      var i :| 0 <= i <= |shown + (tail + d)| && At(m, shown + (tail + d), i);
      if i < |shown| {
        AtPrefix(m, shown + tail, d, i);
        assert false;
      }
      AtSuffix(m, shown, tail + d, i);
    }
  }

  lemma AtPrefix(m: Text, p: Text, d: Text, i: nat)
    requires i + |m| <= |p| && At(m, p + d, i)
    ensures Occurs(m, p)
  {
    assert p[i..i + |m|] == (p + d)[i..i + |m|];
    assert At(m, p, i);
  }

  lemma AtSuffix(m: Text, a: Text, s: Text, i: nat)
    requires |a| <= i && At(m, a + s, i)
    ensures Occurs(m, s)
  {
    assert s[i - |a|..i - |a| + |m|] == (a + s)[i..i + |m|];
    assert At(m, s, i - |a|);
  }

  lemma LeakInTail(shown: Text, tail: Text, d: Text)
    requires (shown != [] ==> |tail| == HOLD_BACK) && !Leaks(shown + tail)
    ensures Leaks(shown + tail + d) <==> Leaks(tail + d)
  {
    hide Occurs, SCOPE_HEADING, LANGUAGE_HEADING, TOOL_VERIFIED_MARKER;
    PhraseInTail(SCOPE_HEADING, shown, tail, d);
    PhraseInTail(LANGUAGE_HEADING, shown, tail, d);
  }

  lemma ScreenStep(p: Text, st: Screen, d: Text)
    requires Holds(p, st) && Plain(p + d)
    ensures Leaks(p + d) ==> ScreenOne(st, d) == Stopped(st.shown + LEAK_REFUSAL)
    ensures !Leaks(p + d) ==> Holds(p + d, ScreenOne(st, d))
  {
    hide Leaks, Plain, StreamSafeSanitize, HOLD_BACK, LEAK_REFUSAL;
    LeakInTail(st.shown, st.tail, d);
    Regroup(st.shown, st.tail, d);
    assert st.shown + (st.tail + d) + [] == p + d;
    PlainPart(st.shown, st.tail + d, []);
    PlainIsScreened(st.tail + d);
    if !Leaks(p + d) {
      var r := StreamSafeSanitize(st.tail + d);
      Regroup(st.shown, r.safe, r.tail);
    }
  }

  /** Without markup only the fixed hold-back applies. */
  lemma PlainIsScreened(s: Text)
    requires Plain(s)
    ensures var r := StreamSafeSanitize(s);
      if Leaks(s) then r == Leak
      else r.Pass? && r.safe + r.tail == s && |r.tail| == if |s| < HOLD_BACK then |s| else HOLD_BACK
  {
    hide Leaks, Occurs, Plain, Cleaned, HOLD_BACK;
    PlainIsClean(s);
    NoOpenTag(s);
  }

  lemma NoOpenTag(s: Text)
    requires Plain(s)
    ensures FromLastOpen(s) == 0
  {
  }

  lemma {:induction false} StoppedStays(shown: Text, deltas: seq<Text>)
    ensures ScreenAll(Stopped(shown), deltas) == Stopped(shown)
  {
    if deltas != [] {
      StoppedStays(shown, deltas[1..]);
    }
  }

  lemma {:induction false} ScreenRun(p: Text, st: Screen, deltas: seq<Text>)
    requires Holds(p, st) && Plain(p + Concat(deltas))
    ensures !Leaks(p + Concat(deltas)) ==> Holds(p + Concat(deltas), ScreenAll(st, deltas))
    ensures Leaks(p + Concat(deltas)) ==> ScreenAll(st, deltas).Stopped?
    decreases |deltas|
  {
    hide Leaks, Occurs, Plain, ScreenOne, Holds;
    if deltas == [] {
      assert p + [] == p;
      assert !Leaks(p) by { HoldsMeans(p, st); }
    } else {
      var d, later := deltas[0], Concat(deltas[1..]);
      Regroup(p, d, later);
      assert [] + (p + d) + later == p + d + later;
      PlainPart([], p + d, later);
      ScreenStep(p, st, d);
      if Leaks(p + d) {
        StoppedStays(st.shown + LEAK_REFUSAL, deltas[1..]);
        LeaksWithin([], p + d, later);
      } else {
        ScreenRun(p + d, ScreenOne(st, d), deltas[1..]);
      }
    }
  }

  lemma HoldsMeans(p: Text, st: Screen)
    requires Holds(p, st)
    ensures !Leaks(p) && st.Streaming? && st.shown + st.tail == p
  {
  }

  lemma {:induction false} ScreenAllSplits(st: Screen, a: seq<Text>, b: seq<Text>)
    ensures ScreenAll(st, a + b) == ScreenAll(ScreenAll(st, a), b)
    decreases |a|
  {
    if a == [] {
      assert a + b == b;
    } else {
      assert (a + b)[1..] == a[1..] + b;
      ScreenAllSplits(ScreenOne(st, a[0]), a[1..], b);
    }
  }

  const NOTHING_SHOWN := Streaming([], [])

  lemma NothingHeld()
    ensures Holds([], NOTHING_SHOWN)
  {
  }

  /**
   On text without `<` and without the marker, for every cut: the stream is stopped
   if and only if sanitizing what has been read would refuse it, and until then
   everything read is shown or held.
   */
  lemma StreamRefusesAsWhole(deltas: seq<Text>)
    requires Plain(Concat(deltas))
    ensures var end := ScreenAll(NOTHING_SHOWN, deltas);
      && (end.Stopped? <==> SanitizeLlmOutput(Concat(deltas)).Refused?)
      && (end.Streaming? ==> end.shown + end.tail == Concat(deltas))
  {
    hide Leaks, Plain, Holds, ScreenAll;
    NothingHeld();
    assert [] + Concat(deltas) == Concat(deltas);
    ScreenRun([], NOTHING_SHOWN, deltas);
    if !Leaks(Concat(deltas)) {
      HoldsMeans(Concat(deltas), ScreenAll(NOTHING_SHOWN, deltas));
    }
  }

  /**
   And it is stopped at the very delta that completes the phrase: what was shown
   before is a prefix of what was read, without the phrase, and only the refusal follows.
   */
  lemma LeakStopsAtOnce(a: seq<Text>, d: Text, b: seq<Text>)
    requires Plain(Concat(a + [d] + b)) && !Leaks(Concat(a)) && Leaks(Concat(a + [d]))
    ensures var before := ScreenAll(NOTHING_SHOWN, a);
      && before.Streaming? && before.shown <= Concat(a) && !Leaks(before.shown)
      && ScreenAll(NOTHING_SHOWN, a + [d]) == Stopped(before.shown + LEAK_REFUSAL)
      && ScreenAll(NOTHING_SHOWN, a + [d] + b) == Stopped(before.shown + LEAK_REFUSAL)
  {
    hide Leaks, Plain, Holds, ScreenOne, ScreenAll, LEAK_REFUSAL, NOTHING_SHOWN;
    var p, before := Concat(a), ScreenAll(NOTHING_SHOWN, a);
    PlainCuts(a, d, b);
    HeldAfter(a);
    HoldsMeans(p, before);
    ScreenStep(p, before, d);
    ScreenAllSplits(NOTHING_SHOWN, a, [d]);
    OneMore(before, d);
    ScreenAllSplits(NOTHING_SHOWN, a + [d], b);
    StoppedStays(before.shown + LEAK_REFUSAL, b);
    assert [] + before.shown + before.tail == p;
    if Leaks(before.shown) {
      LeaksWithin([], before.shown, before.tail);
    }
  }

  lemma PlainCuts(a: seq<Text>, d: Text, b: seq<Text>)
    requires Plain(Concat(a + [d] + b))
    ensures Plain(Concat(a)) && Concat(a + [d]) == Concat(a) + d && Plain(Concat(a) + d)
  {
    hide Plain;
    var p := Concat(a);
    ConcatConcat(a + [d], b);
    ConcatConcat(a, [d]);
    ConcatOne(d);
    assert [] + (p + d) + Concat(b) == p + d + Concat(b);
    PlainPart([], p + d, Concat(b));
    assert [] + p + d == p + d;
    PlainPart([], p, d);
  }

  lemma HeldAfter(deltas: seq<Text>)
    requires Plain(Concat(deltas)) && !Leaks(Concat(deltas))
    ensures Holds(Concat(deltas), ScreenAll(NOTHING_SHOWN, deltas))
  {
    hide Leaks, Plain, Holds, ScreenAll;
    NothingHeld();
    assert [] + Concat(deltas) == Concat(deltas);
    ScreenRun([], NOTHING_SHOWN, deltas);
  }

  lemma ConcatOne(d: Text)
    ensures Concat([d]) == d
  {
    assert [d][1..] == [];
  }

  lemma OneMore(st: Screen, d: Text)
    ensures ScreenAll(st, [d]) == ScreenOne(st, d)
  {
    assert [d][1..] == [];
  }
}
