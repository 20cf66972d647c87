/**
 HTML tags over a whole stream (security/output_validation.py, `stream_safe_sanitize`).
 A call removes complete tags and holds back from the last unclosed angle bracket on.
 So no tag is ever put together out of pieces, as long as no call releases an unclosed
 one. One that stands alone is never released; the first of two can be, and then a tag
 can come to be shown.
 */
module TagStream {
  import opened Text
  import opened MarkerDeletion
  import opened OutputValidation

  // ---------------------------------------------------------------------------
  // No tag is put together out of pieces

  /** At most the last `<` of the text has no `>` after it. */
  predicate OneOpen(s: Text) {
    forall i, j | 0 <= i < j < |s| && s[i] == LT && s[j] == LT :: GT in s[i..]
  }

  /** Everything shown so far is safe from what comes next: each `<` has its `>` right behind it. */
  predicate Sealed(shown: Text, tail: Text) {
    && (forall i | 0 <= i < |shown| - 1 && shown[i] == LT :: shown[i + 1] == GT)
    && (shown != [] && shown[|shown| - 1] == LT ==> tail != [] && tail[0] == GT)
  }

  /** Everything the user has been shown, and what is still held for the end of the stream. */
  function Visible(st: Screen): Text {
    if st.Streaming? then st.shown + st.tail else st.shown
  }

  /** No call of the run releases an unclosed `<`. */
  predicate NeverReleasesOpen(st: Screen, deltas: seq<Text>)
    decreases |deltas|
  {
    deltas == [] || st.Stopped? ||
    var r := StreamSafeSanitize(st.tail + deltas[0]);
    (r.Pass? ==> Sealed(r.safe, r.tail)) && NeverReleasesOpen(ScreenOne(st, deltas[0]), deltas[1..])
  }

  lemma {:induction false} UntaggedAt(s: Text, k: nat)
    requires Untagged(s) && k + 1 < |s| && s[k] == LT && s[k + 1] != GT
    ensures GT !in s[k..]
    decreases k
  {
    if k == 0 {
      assert s[0..] == s;
    } else {
      UntaggedAt(s[1..], k - 1);
      assert s[1..][k - 1..] == s[k..];
    }
  }

  lemma {:induction false} UntaggedAppend(a: Text, c: Text)
    requires forall i | 0 <= i < |a| - 1 && a[i] == LT :: a[i + 1] == GT
    requires a != [] && a[|a| - 1] == LT ==> c == [] || c[0] == GT || GT !in c
    requires Untagged(c)
    ensures Untagged(a + c)
    decreases |a|
  {
    if a == [] {
      assert a + c == c;
    } else {
      UntaggedAppend(a[1..], c);
      var s := a + c;
      assert s[1..] == a[1..] + c;
      if s[0] == LT && |s| > 1 && s[1] != GT {
        assert |a| == 1 && s[1] == c[0];
        assert forall k | 0 <= k < |s| :: s[k] == if k == 0 then LT else c[k - 1];
      }
    }
  }

  /** An unclosed `<` that stands alone is never released. */
  lemma OneOpenIsHeld(buffered: Text)
    requires StreamSafeSanitize(buffered).Pass? && OneOpen(Cleaned(buffered))
    ensures var r := StreamSafeSanitize(buffered); Sealed(r.safe, r.tail)
  {
    hide Leaks, Cleaned, Untagged, OneOpen, HOLD_BACK;
    var c, r := Cleaned(buffered), StreamSafeSanitize(buffered);
    SomethingHeld();
    CleanedIsUntagged(buffered);
    HeldFromOpen(buffered);
    hide StreamSafeSanitize, Sealed;
    forall k | 0 <= k < |r.safe| && c[k] == LT ensures c[k + 1] == GT {
      if c[k + 1] != GT {
        UntaggedAt(c, k);
        LastOpenAt(c, k);
      }
    }
    SealedByNext(r.safe, r.tail);
  }

  /** The part released ends before the last `<`, if that is unclosed, and before the end. */
  lemma HeldFromOpen(buffered: Text)
    requires StreamSafeSanitize(buffered).Pass? && HOLD_BACK > 0
    ensures var r, c := StreamSafeSanitize(buffered), Cleaned(buffered);
      && r.safe + r.tail == c && (r.safe != [] ==> |r.safe| < |c|)
      && (FromLastOpen(c) > 0 && GT !in c[|c| - FromLastOpen(c)..] ==> |r.safe| <= |c| - FromLastOpen(c))
  {
    hide Leaks, Cleaned, HOLD_BACK;
  }

  lemma SealedByNext(safe: Text, tail: Text)
    requires safe != [] ==> tail != []
    requires forall k | 0 <= k < |safe| && (safe + tail)[k] == LT :: (safe + tail)[k + 1] == GT
    ensures Sealed(safe, tail)
  {
    var c := safe + tail;
    forall i | 0 <= i < |safe| - 1 && safe[i] == LT ensures safe[i + 1] == GT {
      assert c[i] == safe[i] && c[i + 1] == safe[i + 1];
    }
    if safe != [] && safe[|safe| - 1] == LT {
      assert c[|safe| - 1] == safe[|safe| - 1] && c[|safe|] == tail[0];
    }
  }

  lemma SomethingHeld()
    ensures HOLD_BACK > 0
  {
  }

  lemma LastOpenAt(c: Text, k: nat)
    requires OneOpen(c) && k < |c| && c[k] == LT && GT !in c[k..]
    ensures FromLastOpen(c) == |c| - k
  {
    hide OneOpen;
    var n := FromLastOpen(c);
    assert n > 0;
    if k < |c| - n {
      TwoOpen(c, k, |c| - n);
    }
  }

  lemma TwoOpen(c: Text, i: nat, j: nat)
    requires OneOpen(c) && i < j < |c| && c[i] == LT && c[j] == LT
    ensures GT in c[i..]
  {
  }

  lemma {:induction false} LeadingCloseStays(s: Text)
    requires s != [] && s[0] == GT
    ensures Cleaned(s) != [] && Cleaned(s)[0] == GT
  {
    var a := RemoveScripts(s);
    assert a[0] == GT by {
      assert OpenScriptLength(s) == 0;
    }
    hide RemoveScripts, RemoveTags, Delete, Untagged;
    MarkerHeadOnce();
    TagsGone(a);
    DeleteKeepsUntagged(TOOL_VERIFIED_MARKER, RemoveTags(a));
  }

  /** What was safe before a call cannot become part of a tag through it. */
  lemma SealedShowsNoTag(st: Screen, d: Text)
    requires st.Streaming? && Sealed(st.shown, st.tail)
    ensures Untagged(Visible(ScreenOne(st, d)))
  {
    hide Cleaned, Leaks, LEAK_REFUSAL, Untagged;
    var buffered := st.tail + d;
    var r := StreamSafeSanitize(buffered);
    if r.Leak? {
      RefusalIsPlain();
      UntaggedAppend(st.shown, LEAK_REFUSAL);
    } else {
      if st.tail != [] && st.tail[0] == GT {
        LeadingCloseStays(buffered);
      }
      ScreenedWhole(buffered);
      CleanedIsUntagged(buffered);
      hide StreamSafeSanitize;
      UntaggedAppend(st.shown, Cleaned(buffered));
      Regroup(st.shown, r.safe, r.tail);
    }
  }

  /** And it stays safe if the call itself releases no unclosed `<`. */
  lemma StaysSealed(st: Screen, d: Text)
    requires st.Streaming? && Sealed(st.shown, st.tail)
    requires var r := StreamSafeSanitize(st.tail + d); r.Pass? && Sealed(r.safe, r.tail)
    ensures ScreenOne(st, d).Streaming? && Sealed(ScreenOne(st, d).shown, ScreenOne(st, d).tail)
  {
    hide StreamSafeSanitize, Sealed, ScreenOne, Cleaned, Visible;
    var buffered := st.tail + d;
    var r := StreamSafeSanitize(buffered);
    if st.tail != [] && st.tail[0] == GT {
      LeadingCloseStays(buffered);
    }
    ScreenedWhole(buffered);
    PassedOn(st, d);
    SealedOn(st.shown, st.tail, r.safe + r.tail);
    SealedMore(st.shown, r.safe, r.tail);
  }

  lemma SealedOn(shown: Text, tail: Text, next: Text)
    requires Sealed(shown, tail) && (tail != [] && tail[0] == GT ==> next != [] && next[0] == GT)
    ensures Sealed(shown, next)
  {
  }

  lemma ScreenedWhole(buffered: Text)
    requires StreamSafeSanitize(buffered).Pass?
    ensures StreamSafeSanitize(buffered).safe + StreamSafeSanitize(buffered).tail == Cleaned(buffered)
  {
  }

  lemma SealedMore(shown: Text, safe: Text, tail: Text)
    requires Sealed(shown, safe + tail) && Sealed(safe, tail)
    ensures Sealed(shown + safe, tail)
  {
    var s := shown + safe;
    forall i | 0 <= i < |s| - 1 && s[i] == LT ensures s[i + 1] == GT {
      if i == |shown| - 1 {
        assert s[i + 1] == (safe + tail)[0];
      } else if i >= |shown| {
        assert s[i] == safe[i - |shown|] && s[i + 1] == safe[i - |shown| + 1];
      }
    }
    if safe == [] {
      assert s == shown && safe + tail == tail;
    }
  }

  lemma RefusalIsPlain()
    ensures GT !in LEAK_REFUSAL && Untagged(LEAK_REFUSAL)
  {
    hide Untagged;
    RefusalHasNoBracket();
    NothingToTag(LEAK_REFUSAL);
  }

  lemma RefusalHasNoBracket()
    ensures LT !in LEAK_REFUSAL && GT !in LEAK_REFUSAL
  {
    RefusalPieces();
    hide REFUSAL_TEXT_START, REFUSAL_TEXT_END;
    var s := REFUSAL_TEXT_START + REFUSAL_TEXT_END;
    forall i | 0 <= i < |s| ensures s[i] !in {'<', '>'} {
      if i < |REFUSAL_TEXT_START| {
        assert s[i] == REFUSAL_TEXT_START[i];
      } else {
        assert s[i] == REFUSAL_TEXT_END[i - |REFUSAL_TEXT_START|];
      }
    }
  }

  lemma RefusalPieces()
    ensures Without(REFUSAL_TEXT_START, {'<', '>'}) && Without(REFUSAL_TEXT_END, {'<', '>'})
  {
  }

  lemma {:induction false} NothingToTag(s: Text)
    requires LT !in s
    ensures Untagged(s)
  {
    if s != [] {
      NothingToTag(s[1..]);
    }
  }

  lemma {:induction false} SealedRun(st: Screen, deltas: seq<Text>)
    requires NeverReleasesOpen(st, deltas) && Untagged(Visible(st))
    requires st.Streaming? ==> Sealed(st.shown, st.tail)
    ensures Untagged(Visible(ScreenAll(st, deltas)))
    decreases |deltas|
  {
    hide Sealed, Untagged, Visible, StreamSafeSanitize;
    if st.Stopped? {
      StoppedStays(st.shown, deltas);
    } else if deltas != [] {
      SealedShowsNoTag(st, deltas[0]);
      if ScreenOne(st, deltas[0]).Streaming? {
        StaysSealed(st, deltas[0]);
      }
      SealedRun(ScreenOne(st, deltas[0]), deltas[1..]);
    }
  }

  /**
   As long as no call releases an unclosed `<`, what the stream has shown and holds
   matches the tag pattern nowhere, however it was cut.
   */
  lemma StreamShowsNoTag(deltas: seq<Text>, i: nat)
    requires NeverReleasesOpen(NOTHING_SHOWN, deltas)
    ensures var text := Visible(ScreenAll(NOTHING_SHOWN, deltas)); i <= |text| ==> TagLength(text[i..]) == 0
  {
    NothingTagged();
    hide ScreenAll, Untagged, NeverReleasesOpen, Sealed, TagLength, Visible;
    SealedRun(NOTHING_SHOWN, deltas);
    var text := Visible(ScreenAll(NOTHING_SHOWN, deltas));
    if i <= |text| {
      UntaggedHasNoTag(text, i);
    }
  }

  lemma NothingTagged()
    ensures NOTHING_SHOWN.Streaming? && Sealed(NOTHING_SHOWN.shown, NOTHING_SHOWN.tail)
    ensures Untagged(Visible(NOTHING_SHOWN))
  {
  }

  // ---------------------------------------------------------------------------
  // A released bracket can always be made a tag

  const SMALL_A := Letter(97)

  /** What closes a released `<`: the first `>` may be taken by a tag in the tail, the second one stays. */
  const CLOSING := [GT, SMALL_A, GT]

  /** A script tag ends in `>`. */
  lemma OpenScriptEnds(s: Text)
    requires OpenScriptLength(s) > 0
    ensures s[OpenScriptLength(s) - 1] == GT
  {
    var at := 1 + SpanSpace(s[1..]);
    var n := IndexOf(s[at + 6..], GT);
    assert s[at + 6..][n] == s[at + 6 + n];
  }

  lemma {:induction false} NoCloseScript(s: Text)
    requires LT !in s
    ensures ToCloseScript(s) == 0
  {
    if s != [] {
      NoCloseScript(s[1..]);
    }
  }

  lemma {:induction false} ClosedScripts(t: Text)
    requires GT !in t
    ensures RemoveScripts(t + CLOSING) == t + CLOSING
  {
    var s := t + CLOSING;
    hide OpenScriptLength, ToCloseScript, CLOSING, RemoveScripts;
    if t == [] {
      assert s == CLOSING;
      NoOpenInClosing();
      NoScripts(CLOSING);
    } else {
      ClosedScripts(t[1..]);
      assert s[1..] == t[1..] + CLOSING && s == [t[0]] + s[1..];
      var open := OpenScriptLength(s);
      if open > 0 {
        OpenScriptEnds(s);
        AfterFirstClose(t, open);
        NoCloseScript(s[open..]);
      }
      RemoveScriptsMiss(s);
    }
  }

  lemma RemoveScriptsMiss(s: Text)
    requires s != [] && (OpenScriptLength(s) > 0 ==> ToCloseScript(s[OpenScriptLength(s)..]) == 0)
    ensures RemoveScripts(s) == [s[0]] + RemoveScripts(s[1..])
  {
    hide OpenScriptLength, ToCloseScript;
  }

  lemma NoOpenInClosing()
    ensures LT !in CLOSING
  {
  }

  /** Behind any `>` there is no `<`. */
  lemma AfterFirstClose(t: Text, n: nat)
    requires GT !in t && 0 < n <= |t + CLOSING| && (t + CLOSING)[n - 1] == GT
    ensures LT !in (t + CLOSING)[n..]
  {
    var s := t + CLOSING;
    assert n > |t|;
    assert forall k | |t| <= k < |s| :: s[k] == CLOSING[k - |t|];
  }

  /** The text up to its first `<`, or all of it when there is none, or when the first stands last. */
  function BeforeOpen(t: Text): (n: nat)
    ensures n <= |t|
  {
    if t == [] || (t[0] == LT && |t| > 1) then 0 else 1 + BeforeOpen(t[1..])
  }

  /** What is left of it once it is closed: a tag goes, and with it the first `>`. */
  function Closed(t: Text): Text {
    t[..BeforeOpen(t)] + if BeforeOpen(t) == |t| then CLOSING else [SMALL_A, GT]
  }

  lemma {:induction false} ClosedTags(t: Text)
    requires GT !in t
    ensures RemoveTags(t + CLOSING) == Closed(t)
  {
    hide RemoveTags, TagLength, CLOSING, Closed;
    var s := t + CLOSING;
    ClosedSteps(t);
    if t == [] {
      assert s == CLOSING;
      NoOpenInClosing();
      NoTags(CLOSING);
    } else if t[0] == LT && |t| > 1 {
      FirstTagOf(t);
      NoMoreTags();
    } else {
      ClosedTags(t[1..]);
      assert s[1..] == t[1..] + CLOSING && s[0] == t[0];
      NoTagAt(t);
      RemoveTagsMiss(s);
    }
  }

  lemma NoMoreTags()
    ensures RemoveTags([SMALL_A, GT]) == [SMALL_A, GT]
  {
    NoTags([SMALL_A, GT]);
  }

  lemma ClosedSteps(t: Text)
    ensures t == [] ==> Closed(t) == CLOSING
    ensures t != [] && t[0] == LT && |t| > 1 ==> Closed(t) == [SMALL_A, GT]
    ensures t != [] && !(t[0] == LT && |t| > 1) ==> Closed(t) == [t[0]] + Closed(t[1..])
  {
    hide CLOSING;
    if t == [] {
      assert t[..0] + CLOSING == CLOSING;
    } else if t[0] == LT && |t| > 1 {
      assert t[..0] + [SMALL_A, GT] == [SMALL_A, GT];
    } else {
      var n := BeforeOpen(t[1..]);
      assert BeforeOpen(t) == 1 + n && t[..1 + n] == [t[0]] + t[1..][..n];
      hide BeforeOpen;
      Regroup([t[0]], t[1..][..n], if n == |t| - 1 then CLOSING else [SMALL_A, GT]);
    }
  }

  lemma RemoveTagsMiss(s: Text)
    requires s != [] && TagLength(s) == 0
    ensures RemoveTags(s) == [s[0]] + RemoveTags(s[1..])
  {
  }

  lemma FirstTagOf(t: Text)
    requires GT !in t && |t| > 1 && t[0] == LT
    ensures var s := t + CLOSING; RemoveTags(s) == RemoveTags([SMALL_A, GT])
  {
    var s := t + CLOSING;
    assert s[1..] == t[1..] + CLOSING;
    assert s[1..][|t| - 1] == GT;
    FirstClose(s[1..], |t| - 1);
    hide IndexOf;
    assert TagLength(s) == |t| + 1 && s[|t| + 1..] == [SMALL_A, GT];
  }

  lemma NoTagAt(t: Text)
    requires t != [] && !(t[0] == LT && |t| > 1)
    ensures TagLength(t + CLOSING) == 0
  {
    var s := t + CLOSING;
    if s[0] == LT {
      assert s[1] == GT && s[1..][0] == GT;
      FirstClose(s[1..], 0);
    }
  }

  /** A phrase without `>` that does not end in an "a" is found in the closed text only where it was. */
  lemma ClosedHasNothingNew(m: Text, t: Text)
    requires m != [] && GT !in m && m[|m| - 1] != SMALL_A && !Occurs(m, t)
    ensures !Occurs(m, Closed(t))
  {
    var u, n := Closed(t), BeforeOpen(t);
    hide BeforeOpen, Closed, At, Occurs;
    ClosedIs(t);
    if Occurs(m, u) {
      var i := WhereOccurs(m, u);
      WithinClosed(m, t, i);
      StillThere(m, t, u, n, i);
    }
  }

  lemma WhereOccurs(m: Text, s: Text) returns (i: nat)
    requires Occurs(m, s)
    ensures i + |m| <= |s| && At(m, s, i)
  {
    i :| 0 <= i <= |s| && At(m, s, i);
  }

  lemma ClosedIs(t: Text)
    ensures var u, n := Closed(t), BeforeOpen(t);
      && n <= |t| && n < |u| && u[..n] == t[..n] && u[|u| - 1] == GT
      && (forall k | n <= k < |u| :: u[k] in {GT, SMALL_A})
  {
    hide BeforeOpen;
    var n := BeforeOpen(t);
    var end := if n == |t| then CLOSING else [SMALL_A, GT];
    assert end[|end| - 1] == GT && forall k | 0 <= k < |end| :: end[k] in {GT, SMALL_A};
    hide CLOSING;
    Appended(t[..n], end);
  }

  lemma Appended(a: Text, end: Text)
    requires end != [] && forall k | 0 <= k < |end| :: end[k] in {GT, SMALL_A}
    ensures var u := a + end;
      u[..|a|] == a && u[|u| - 1] == end[|end| - 1] && forall k | |a| <= k < |u| :: u[k] in {GT, SMALL_A}
  {
    var u := a + end;
    assert forall k | |a| <= k < |u| :: u[k] == end[k - |a|];
  }

  lemma WithinClosed(m: Text, t: Text, i: nat)
    requires m != [] && GT !in m && m[|m| - 1] != SMALL_A && At(m, Closed(t), i)
    ensures i + |m| <= BeforeOpen(t)
  {
    var u, n := Closed(t), BeforeOpen(t);
    hide BeforeOpen, Closed;
    ClosedIs(t);
    var last := i + |m| - 1;
    assert u[last] == u[i..i + |m|][|m| - 1] == m[|m| - 1];
    assert m[|m| - 1] in m;
  }

  lemma StillThere(m: Text, t: Text, u: Text, n: nat, i: nat)
    requires At(m, u, i) && i + |m| <= n <= |t| && n <= |u| && u[..n] == t[..n]
    ensures Occurs(m, t)
  {
    assert u[i..i + |m|] == u[..n][i..i + |m|] == t[i..i + |m|];
    assert At(m, t, i);
  }

  lemma Endings()
    ensures var m := TOOL_VERIFIED_MARKER; m != [] && GT !in m && m[|m| - 1] == Mark(93)
    ensures var p := SCOPE_HEADING; p != [] && GT !in p && p[|p| - 1] == Letter(69)
    ensures var p := LANGUAGE_HEADING; p != [] && GT !in p && p[|p| - 1] == Mark(41)
  {
    MarkerHeadOnce();
    MarkerEnds();
    HeadingsEnd();
  }

  lemma MarkerEnds()
    ensures TOOL_VERIFIED_MARKER != [] && TOOL_VERIFIED_MARKER[|TOOL_VERIFIED_MARKER| - 1] == Mark(93)
  {
    var text := "[" + MARKER_TEXT_START + MARKER_TEXT_END;
    assert text[|text| - 1] == MARKER_TEXT_END[|MARKER_TEXT_END| - 1] == ']';
  }

  lemma HeadingsEnd()
    ensures var p := SCOPE_HEADING; p != [] && GT !in p && p[|p| - 1] == Letter(69)
    ensures var p := LANGUAGE_HEADING; p != [] && GT !in p && p[|p| - 1] == Mark(41)
  {
  }

  /** A tail without `>` and marker, closed, is neither refused nor stripped of its last `>`. */
  lemma ClosingIsShown(t: Text)
    requires GT !in t && !Occurs(TOOL_VERIFIED_MARKER, t) && !Leaks(t)
    ensures var r := StreamSafeSanitize(t + CLOSING); r.Pass? && r.safe + r.tail == Closed(t)
  {
    Endings();
    hide Occurs, Delete, RemoveScripts, RemoveTags, Closed, TOOL_VERIFIED_MARKER, SCOPE_HEADING, LANGUAGE_HEADING,
      CLOSING, HOLD_BACK;
    ClosedScripts(t);
    ClosedTags(t);
    ClosedHasNothingNew(TOOL_VERIFIED_MARKER, t);
    ClosedHasNothingNew(SCOPE_HEADING, t);
    ClosedHasNothingNew(LANGUAGE_HEADING, t);
    DeleteNone(TOOL_VERIFIED_MARKER, Closed(t));
    assert Cleaned(t + CLOSING) == Closed(t);
    ScreenedWhole(t + CLOSING);
  }

  /** The unclosed `<` in what a call releases. */
  lemma ReleasedOpen(buffered: Text) returns (k: nat)
    requires var r := StreamSafeSanitize(buffered); r.Pass? && !Sealed(r.safe, r.tail)
    ensures var r := StreamSafeSanitize(buffered);
      && k < |r.safe| && r.safe[k] == LT && r.tail != [] && GT !in r.tail
      && (k + 1 < |r.safe| ==> r.safe[k + 1] != GT)
  {
    hide Cleaned, Untagged, HOLD_BACK, StreamSafeSanitize, Sealed;
    var r := StreamSafeSanitize(buffered);
    SomethingHeld();
    CleanedIsUntagged(buffered);
    HeldFromOpen(buffered);
    k := OpenIn(r.safe, r.tail);
    OpenTail(r.safe, r.tail, k);
  }

  /** Behind an unclosed `<` there is no `>`. */
  lemma OpenTail(safe: Text, tail: Text, k: nat)
    requires Untagged(safe + tail) && k < |safe| && safe[k] == LT
    requires if k + 1 < |safe| then safe[k + 1] != GT else tail != [] && tail[0] != GT
    ensures GT !in tail
  {
    hide Untagged;
    var c := safe + tail;
    if tail != [] {
      assert c[k] == LT && c[k + 1] == if k + 1 < |safe| then safe[k + 1] else tail[0];
      UntaggedAt(c, k);
      forall j | 0 <= j < |tail| ensures tail[j] != GT {
        assert tail[j] == c[k..][|safe| - k + j];
      }
    }
  }

  lemma OpenIn(safe: Text, tail: Text) returns (k: nat)
    requires !Sealed(safe, tail) && (safe != [] ==> tail != [])
    ensures k < |safe| && safe[k] == LT && (if k + 1 < |safe| then safe[k + 1] != GT else tail != [] && tail[0] != GT)
  {
    if i :| 0 <= i < |safe| - 1 && safe[i] == LT && safe[i + 1] != GT {
      k := i;
    } else {
      k := |safe| - 1;
    }
  }

  lemma ClosedStarts(t: Text)
    requires t != [] && GT !in t
    ensures Closed(t)[0] != GT
  {
    assert BeforeOpen(t) > 0 ==> Closed(t)[0] == t[0];
  }

  lemma TagAppears(shown: Text, u: Text, k: nat)
    requires k < |shown| && shown[k] == LT && (k + 1 < |shown| ==> shown[k + 1] != GT)
    requires u != [] && u[0] != GT && u[|u| - 1] == GT
    ensures !Untagged(shown + u)
  {
    var s := shown + u;
    assert s[k] == LT && s[k + 1] != GT && s[k..][|s| - 1 - k] == GT;
    if Untagged(s) {
      UntaggedAt(s, k);
    }
  }

  /** Once a `<` is out unclosed, the right delta makes a tag of it. */
  lemma OpenCanBecomeTag(st: Screen, d: Text)
    requires st.Streaming?
    requires var r := StreamSafeSanitize(st.tail + d);
      r.Pass? && !Occurs(TOOL_VERIFIED_MARKER, r.tail) && !Sealed(r.safe, r.tail)
    ensures !Untagged(Visible(ScreenOne(ScreenOne(st, d), CLOSING)))
  {
    hide Occurs, Untagged, Sealed, Closed, CLOSING, StreamSafeSanitize, Leaks, ScreenOne, Visible, TOOL_VERIFIED_MARKER;
    var r, next := StreamSafeSanitize(st.tail + d), ScreenOne(st, d);
    var k := ReleasedOpen(st.tail + d);
    TailKeepsSecrets(st.tail + d);
    ClosingIsShown(r.tail);
    ClosedStarts(r.tail);
    ClosedIs(r.tail);
    PassedOn(st, d);
    PassedOn(next, CLOSING);
    TagAppears(next.shown, Closed(r.tail), |st.shown| + k);
  }

  /** What a call that passes shows and holds. */
  lemma PassedOn(st: Screen, d: Text)
    requires st.Streaming? && StreamSafeSanitize(st.tail + d).Pass?
    ensures var r := StreamSafeSanitize(st.tail + d);
      && ScreenOne(st, d) == Streaming(st.shown + r.safe, r.tail)
      && Visible(ScreenOne(st, d)) == st.shown + (r.safe + r.tail)
  {
    hide StreamSafeSanitize, LEAK_REFUSAL;
    var r := StreamSafeSanitize(st.tail + d);
    Regroup(st.shown, r.safe, r.tail);
  }

  /** What passed has no leak phrase, nor has its tail. */
  lemma TailKeepsSecrets(buffered: Text)
    requires StreamSafeSanitize(buffered).Pass?
    ensures !Leaks(StreamSafeSanitize(buffered).tail)
  {
    hide Leaks, Cleaned, HOLD_BACK;
    var r := StreamSafeSanitize(buffered);
    ScreenedWhole(buffered);
    assert r.safe + r.tail + [] == Cleaned(buffered);
    if Leaks(r.tail) {
      LeaksWithin(r.safe, r.tail, []);
    }
  }

  /**
   A call that passes, in a stream that is safe so far, keeps it safe from everything
   that may come next exactly if it releases no unclosed `<`. The tail must not hold a
   marker: deleting that in the next call could complete a leak phrase, which stops the
   stream.
   */
  lemma SafeExactly(st: Screen, d: Text)
    requires st.Streaming? && Sealed(st.shown, st.tail)
    requires var r := StreamSafeSanitize(st.tail + d); r.Pass? && !Occurs(TOOL_VERIFIED_MARKER, r.tail)
    ensures var r := StreamSafeSanitize(st.tail + d);
      Sealed(r.safe, r.tail) <==> forall more: Text :: Untagged(Visible(ScreenOne(ScreenOne(st, d), more)))
  {
    var r, next := StreamSafeSanitize(st.tail + d), ScreenOne(st, d);
    hide Occurs, Untagged, Sealed, Visible, ScreenOne, StreamSafeSanitize;
    if Sealed(r.safe, r.tail) {
      StaysSealed(st, d);
      forall more: Text ensures Untagged(Visible(ScreenOne(next, more))) {
        SealedShowsNoTag(next, more);
      }
    } else {
      OpenCanBecomeTag(st, d);
    }
  }

  // ---------------------------------------------------------------------------
  // Two unclosed brackets

  /** Text of these three symbols has no marker and no leak phrase. */
  predicate Tame(s: Text) {
    forall k | 0 <= k < |s| :: s[k] in {SMALL_A, LT, GT}
  }

  lemma TameOccursNot(m: Text, s: Text)
    requires Tame(s) && m != [] && m[0] !in {SMALL_A, LT, GT}
    ensures !Occurs(m, s)
  {
    hide Tame, At;
    if i :| 0 <= i <= |s| && At(m, s, i) {
      AtHead(m, s, i);
      TameAt(s, i);
    }
  }

  lemma AtHead(m: Text, s: Text, i: nat)
    requires m != [] && At(m, s, i)
    ensures i < |s| && s[i] == m[0]
  {
    assert s[i..i + |m|][0] == m[0];
  }

  lemma TameAt(s: Text, i: nat)
    requires Tame(s) && i < |s|
    ensures s[i] in {SMALL_A, LT, GT}
  {
  }

  lemma TameIsClean(s: Text)
    requires Tame(s)
    ensures Delete(TOOL_VERIFIED_MARKER, s) == s && !Leaks(s)
  {
    hide Occurs, Delete;
    Heads();
    hide TOOL_VERIFIED_MARKER, SCOPE_HEADING, LANGUAGE_HEADING;
    TameOccursNot(TOOL_VERIFIED_MARKER, s);
    TameOccursNot(SCOPE_HEADING, s);
    TameOccursNot(LANGUAGE_HEADING, s);
    DeleteNone(TOOL_VERIFIED_MARKER, s);
  }

  lemma Heads()
    ensures TOOL_VERIFIED_MARKER != [] && TOOL_VERIFIED_MARKER[0] == Mark(91)
    ensures SCOPE_HEADING != [] && SCOPE_HEADING[0] == Letter(73)
    ensures LANGUAGE_HEADING != [] && LANGUAGE_HEADING[0] == Letter(76)
  {
  }

  /** Without `>` there is no tag to remove. */
  lemma {:induction false} NothingClosed(s: Text)
    requires GT !in s
    ensures RemoveScripts(s) == s && RemoveTags(s) == s
  {
    if s != [] {
      NothingClosed(s[1..]);
      NeverOpens(s);
    }
  }

  lemma NeverOpens(s: Text)
    requires GT !in s
    ensures OpenScriptLength(s) == 0 && TagLength(s) == 0
  {
  }

  function Fill(n: nat): Text {
    seq(n, _ => SMALL_A)
  }

  /** The first call keeps the second `<` back, and releases the first. */
  lemma FirstOpenReleased()
    ensures StreamSafeSanitize([LT, SMALL_A, LT] + Fill(HOLD_BACK)) == Pass([LT, SMALL_A], [LT] + Fill(HOLD_BACK))
  {
    hide Leaks, Delete, HOLD_BACK, TOOL_VERIFIED_MARKER, RemoveScripts, RemoveTags, FromLastOpen, Fill, Tame;
    var n := HOLD_BACK;
    var s := [LT, SMALL_A, LT] + Fill(n);
    TwoOpenText(n);
    TameIsClean(s);
    NothingClosed(s);
  }

  lemma TwoOpenText(n: nat)
    ensures var s := [LT, SMALL_A, LT] + Fill(n);
      && Tame(s) && GT !in s && |s| == n + 3 && FromLastOpen(s) == n + 1
      && s[..2] == [LT, SMALL_A] && s[2..] == [LT] + Fill(n) && GT !in s[2..]
  {
    var s := [LT, SMALL_A, LT] + Fill(n);
    hide FromLastOpen;
    assert s[2] == LT && forall k | 2 < k < |s| :: s[k] == SMALL_A;
    assert forall k | 0 <= k < |s| :: s[k] != GT;
  }

  /** The second call takes what it holds for a tag, and keeps a `>`. */
  lemma SecondOpenRemoved()
    ensures StreamSafeSanitize([LT] + Fill(HOLD_BACK) + [GT, GT]) == Pass([], [GT])
  {
    SomethingHeld();
    hide Leaks, Delete, HOLD_BACK, TOOL_VERIFIED_MARKER, RemoveScripts, RemoveTags, Fill;
    FilledTagGoes(HOLD_BACK);
    TameIsClean([GT]);
    assert FromLastOpen([GT]) == 0;
  }

  lemma FilledTagGoes(n: nat)
    requires n > 0
    ensures RemoveTags(RemoveScripts([LT] + Fill(n) + [GT, GT])) == [GT]
  {
    var rest := Fill(n) + [GT, GT];
    var s := [LT] + rest;
    assert [LT] + Fill(n) + [GT, GT] == s;
    FilledTag(n);
    hide Fill, TagLength, OpenScriptLength;
    NoScripts(rest);
    NoOpenScript(s, rest);
    NoTags([GT]);
  }

  lemma NoOpenScript(s: Text, rest: Text)
    requires s == [LT] + rest && OpenScriptLength(s) == 0 && RemoveScripts(rest) == rest
    ensures RemoveScripts(s) == s
  {
    assert s[1..] == rest;
  }

  lemma FilledTag(n: nat)
    requires n > 0
    ensures var rest := Fill(n) + [GT, GT]; var s := [LT] + rest;
      LT !in rest && OpenScriptLength(s) == 0 && TagLength(s) == n + 2 <= |s| && s[n + 2..] == [GT]
  {
    var rest := Fill(n) + [GT, GT];
    var s := [LT] + rest;
    assert s[1..] == rest && rest[0] == SMALL_A;
    assert rest[n] == GT && forall k | 0 <= k < n :: rest[k] == SMALL_A;
    FirstClose(rest, n);
    hide IndexOf;
    assert SpanSpace(rest) == 0;
  }

  lemma FirstClose(s: Text, n: nat)
    requires n < |s| && s[n] == GT && forall k | 0 <= k < n :: s[k] != GT
    ensures IndexOf(s, GT) == n
  {
    hide IndexOf;
  }

  lemma SmallTag()
    ensures TagLength([LT, SMALL_A] + [GT]) == 3
  {
    var s := [LT, SMALL_A] + [GT];
    assert s[1..] == [SMALL_A, GT];
    FirstClose([SMALL_A, GT], 1);
  }

  /** With two unclosed `<` in one call, a whole tag can come to be shown. */
  lemma TwoOpenShowTag() returns (deltas: seq<Text>)
    ensures ScreenAll(NOTHING_SHOWN, deltas) == Streaming([LT, SMALL_A], [GT])
    ensures TagLength([LT, SMALL_A] + [GT]) == 3
    ensures !NeverReleasesOpen(NOTHING_SHOWN, deltas)
  {
    var a, b := [LT, SMALL_A, LT] + Fill(HOLD_BACK), [GT, GT];
    deltas := [a, b];
    FirstOpenReleased();
    SecondOpenRemoved();
    hide StreamSafeSanitize, HOLD_BACK, NeverReleasesOpen, Fill, TagLength;
    assert ([LT, SMALL_A] + [GT])[0..] == [LT, SMALL_A] + [GT];
    assert [] + a == a && [] + [LT, SMALL_A] == [LT, SMALL_A] && [LT, SMALL_A] + [] == [LT, SMALL_A];
    var st := ScreenOne(NOTHING_SHOWN, a);
    assert deltas[1..] == [b];
    OneMore(st, b);
    SmallTag();
    if NeverReleasesOpen(NOTHING_SHOWN, deltas) {
      StreamShowsNoTag(deltas, 0);
      assert false;
    }
  }
}
