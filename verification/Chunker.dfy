/**
 speech/chunker.py: cutting a reply into chunks that can be spoken, at sentence ends, and inside over-long sentences at
 commas and before conjunctions, never inside a number.
 */
module Chunker {
  import opened Text

  // ---------------------------------------------------------------------------
  // Number runs: an optional currency sign, digits with commas, an optional fraction

  function SpanDigitsCommas(s: Text): (n: nat)
    ensures n <= |s|
    ensures forall k | 0 <= k < n :: s[k].Digit? || s[k].Comma?
    ensures n < |s| ==> !s[n].Digit? && !s[n].Comma?
  {
    if s != [] && (s[0].Digit? || s[0].Comma?) then 1 + SpanDigitsCommas(s[1..]) else 0
  }

  function SpanDigits(s: Text): (n: nat)
    ensures n <= |s|
    ensures forall k | 0 <= k < n :: s[k].Digit?
    ensures n < |s| ==> !s[n].Digit?
  {
    if s != [] && s[0].Digit? then 1 + SpanDigits(s[1..]) else 0
  }

  function SignLength(s: Text): (n: nat)
    ensures n <= |s|
  {
    if s != [] && s[0].Currency? then 1 else 0
  }

  /** Length of the number run at the head of the text, 0 if there is none. */
  function RunLength(s: Text): (n: nat)
    ensures n <= |s|
    ensures n == 0 && s != [] ==> !s[0].Digit?
    ensures forall k | 0 <= k < n :: s[k].Currency? || s[k].Digit? || s[k].Comma? || s[k].Dot?
  {
    var sign := SignLength(s);
    if sign == |s| || !s[sign].Digit? then 0
    else
      var body := sign + 1 + SpanDigitsCommas(s[sign + 1..]);
      if body + 1 < |s| && s[body].Dot? && s[body + 1].Digit?
      then body + 1 + SpanDigits(s[body + 1..])
      else body
  }

  // ---------------------------------------------------------------------------
  // Masking

  /** One unit of masked text: a character outside number runs, or the hole a run left. */
  datatype Unit = Plain(c: Sym) | Hole(index: nat)

  function Units(s: Text, base: nat): seq<Unit>
    decreases |s|
  {
    if s == [] then []
    else
      var n := RunLength(s);
      if n > 0 then [Hole(base)] + Units(s[n..], base + 1)
      else [Plain(s[0])] + Units(s[1..], base)
  }

  function Runs(s: Text): seq<Text>
    decreases |s|
  {
    if s == [] then []
    else
      var n := RunLength(s);
      if n > 0 then [s[..n]] + Runs(s[n..]) else Runs(s[1..])
  }

  function Decimal(n: nat): (d: Text)
    ensures d != [] && forall k | 0 <= k < |d| :: d[k].Digit?
  {
    if n < 10 then [Digit(48 + n)] else Decimal(n / 10) + [Digit(48 + n % 10)]
  }

  function Placeholder(i: nat): Text {
    [Nul] + Decimal(i) + [Nul]
  }

  function Spell(us: seq<Unit>): Text {
    if us == [] then []
    else (match us[0] case Plain(c) => [c] case Hole(i) => Placeholder(i)) + Spell(us[1..])
  }

  /** The masked text with every hole filled again. */
  function Expand(us: seq<Unit>, runs: seq<Text>): Text {
    if us == [] then []
    else (match us[0] case Plain(c) => [c] case Hole(i) => if i < |runs| then runs[i] else []) + Expand(us[1..], runs)
  }

  /** str.replace(pat, rep) for a non-empty pattern. */
  function Replace(s: Text, pat: Text, rep: Text): Text
    requires pat != []
    decreases |s|
  {
    if |s| < |pat| then s
    else if s[..|pat|] == pat then rep + Replace(s[|pat|..], pat, rep)
    else [s[0]] + Replace(s[1..], pat, rep)
  }

  /** The unmasking loop from its i-th iteration on. */
  function UnmaskFrom(s: Text, runs: seq<Text>, i: nat): Text
    requires i <= |runs|
    decreases |runs| - i
  {
    if i == |runs| then s else UnmaskFrom(Replace(s, Placeholder(i), runs[i]), runs, i + 1)
  }

  /** Masked text proper: no NUL or digit outside holes, and holes numbered upwards in [lo, hi). */
  predicate Masked(us: seq<Unit>, lo: nat, hi: nat) {
    us == [] ||
    (match us[0]
     case Plain(c) => c != Nul && !c.Digit? && Masked(us[1..], lo, hi)
     case Hole(i) => lo <= i < hi && Masked(us[1..], i + 1, hi))
  }

  lemma {:induction false} UnitsAreMasked(s: Text, base: nat)
    requires NulFree(s)
    ensures Masked(Units(s, base), base, base + |Runs(s)|)
    decreases |s|
  {
    hide RunLength;
    if s != [] {
      var n := RunLength(s);
      if n > 0 {
        UnitsAreMasked(s[n..], base + 1);
        assert Units(s, base)[1..] == Units(s[n..], base + 1);
      } else {
        UnitsAreMasked(s[1..], base);
        assert Units(s, base)[1..] == Units(s[1..], base);
      }
    }
  }

  lemma {:induction false} RunsAreNulFree(s: Text)
    requires NulFree(s)
    ensures forall k | 0 <= k < |Runs(s)| :: NulFree(Runs(s)[k])
    decreases |s|
  {
    if s != [] {
      RunsAreNulFree(if RunLength(s) > 0 then s[RunLength(s)..] else s[1..]);
    }
  }

  lemma {:induction false} ExpandUnits(s: Text, base: nat, runs: seq<Text>)
    requires base + |Runs(s)| <= |runs| && runs[base..base + |Runs(s)|] == Runs(s)
    ensures Expand(Units(s, base), runs) == s
    decreases |s|
  {
    hide RunLength, Units, Runs, Expand;
    if s == [] {
      NothingExpands(base, runs);
    } else {
      RunsTail(s, base, runs);
      ExpandUnits(s[HeadLength(s)..], if RunLength(s) > 0 then base + 1 else base, runs);
      ExpandBeyondHead(s, base, runs);
    }
  }

  lemma NothingExpands(base: nat, runs: seq<Text>)
    ensures Expand(Units([], base), runs) == []
  {
  }

  lemma ExpandBeyondHead(s: Text, base: nat, runs: seq<Text>)
    requires s != [] && (RunLength(s) > 0 ==> base < |runs| && runs[base] == s[..RunLength(s)])
    requires var rest := s[HeadLength(s)..];
      Expand(Units(rest, if RunLength(s) > 0 then base + 1 else base), runs) == rest
    ensures Expand(Units(s, base), runs) == s
  {
    hide RunLength, Units, Expand, EndMark, SentenceLength, HeadLength;
    BeyondHead(s, base);
    HeadExpands(s, base, runs);
    var rest := s[HeadLength(s)..];
    ExpandConcat([HeadUnit(s, base)], Units(rest, if RunLength(s) > 0 then base + 1 else base), runs);
    assert s == s[..HeadLength(s)] + rest;
  }

  // ---------------------------------------------------------------------------
  // Unmasking undoes masking

  function Value(d: Text): nat {
    if d == [] || !d[|d| - 1].Digit? then 0
    else 10 * Value(d[..|d| - 1]) + (if d[|d| - 1].cp >= 48 then d[|d| - 1].cp - 48 else 0)
  }

  lemma {:induction false} DecimalValue(n: nat)
    ensures Value(Decimal(n)) == n
  {
    if n < 10 {
      assert Decimal(n)[..0] == [];
    } else {
      DecimalValue(n / 10);
      assert Decimal(n)[..|Decimal(n)| - 1] == Decimal(n / 10);
    }
  }

  /** A placeholder can start a text that starts with another placeholder only if they are the same. */
  lemma PlaceholderClash(i: nat, j: nat, rest: Text)
    requires Placeholder(i) <= Placeholder(j) + rest
    ensures i == j
  {
    var a, b := Decimal(i), Decimal(j);
    var t := Placeholder(j) + rest;
    assert forall k | 0 <= k < |b| :: t[1 + k] == b[k];
    assert t[1 + |b|] == Nul;
    assert forall k | 0 <= k < |a| :: Placeholder(i)[1 + k] == a[k];
    assert Placeholder(i)[1 + |a|] == Nul;
    assert forall k | 0 <= k < |Placeholder(i)| :: Placeholder(i)[k] == t[k];
    assert |a| == |b|;
    assert a == b;
    DecimalValue(i);
    DecimalValue(j);
  }

  /** A pattern that starts with NUL is not found in NUL-free text. */
  lemma {:induction false} ReplaceSkips(pre: Text, s: Text, pat: Text, rep: Text)
    requires NulFree(pre) && pat != [] && pat[0] == Nul
    ensures Replace(pre + s, pat, rep) == pre + Replace(s, pat, rep)
    decreases |pre|
  {
    if pre == [] {
      assert pre + s == s;
      assert pre + Replace(s, pat, rep) == Replace(s, pat, rep);
    } else if |pre + s| >= |pat| {
      assert (pre + s)[..|pat|][0] == pre[0];
      assert (pre + s)[1..] == pre[1..] + s;
      ReplaceSkips(pre[1..], s, pat, rep);
      hide Replace;
      assert pre == [pre[0]] + pre[1..];
      Regroup([pre[0]], pre[1..], Replace(s, pat, rep));
    }
  }

  lemma {:induction false} ReplaceAbsent(us: seq<Unit>, i: nat, hi: nat, rep: Text)
    requires Masked(us, i + 1, hi)
    ensures Replace(Spell(us), Placeholder(i), rep) == Spell(us)
  {
    if us != [] {
      match us[0] {
        case Plain(c) =>
          ReplaceAbsent(us[1..], i, hi, rep);
          assert NulFree([c]);
          ReplaceSkips([c], Spell(us[1..]), Placeholder(i), rep);
        case Hole(j) =>
          MaskedWeaken(us[1..], j + 1, i + 1, hi);
          ReplaceAbsent(us[1..], i, hi, rep);
          SpellStarts(us[1..], j + 1, hi);
          hide Replace, Placeholder;
          ReplacePastHole(Spell(us[1..]), i, j, rep);
      }
    }
  }

  lemma {:induction false} MaskedWeaken(us: seq<Unit>, lo: nat, lo': nat, hi: nat)
    requires lo' <= lo && Masked(us, lo, hi)
    ensures Masked(us, lo', hi)
  {
    if us != [] && us[0].Plain? {
      MaskedWeaken(us[1..], lo, lo', hi);
    }
  }

  /** Passing another placeholder: neither its two NULs nor its digits start a match. */
  lemma ReplacePastHole(rest: Text, i: nat, j: nat, rep: Text)
    requires i != j && (rest != [] ==> !rest[0].Digit?)
    requires Replace(rest, Placeholder(i), rep) == rest
    ensures Replace(Placeholder(j) + rest, Placeholder(i), rep) == Placeholder(j) + rest
  {
    var pat, digits := Placeholder(i), Decimal(j);
    ReplacePastNul(i, rest, rep);
    if pat <= Placeholder(j) + rest {
      PlaceholderClash(i, j, rest);
    }
    HoleParts(j, rest);
    StartsWithNul(i);
    hide Replace, Placeholder, Decimal;
    ReplaceSkips(digits, [Nul] + rest, pat, rep);
    ReplaceMiss(Nul, digits + ([Nul] + rest), pat, rep);
  }

  lemma HoleParts(j: nat, rest: Text)
    ensures Placeholder(j) + rest == [Nul] + (Decimal(j) + ([Nul] + rest)) && NulFree(Decimal(j))
  {
  }

  /** A NUL that no digit follows starts no match. */
  lemma ReplacePastNul(i: nat, rest: Text, rep: Text)
    requires rest != [] ==> !rest[0].Digit?
    requires Replace(rest, Placeholder(i), rep) == rest
    ensures Replace([Nul] + rest, Placeholder(i), rep) == [Nul] + rest
  {
    hide Replace, Placeholder, Decimal;
    StartsWithNul(i);
    if Placeholder(i) <= [Nul] + rest {
      DigitFollows(i, rest);
    }
    ReplaceMiss(Nul, rest, Placeholder(i), rep);
  }

  lemma DigitFollows(i: nat, rest: Text)
    requires Placeholder(i) <= [Nul] + rest
    ensures rest != [] && rest[0].Digit?
  {
    assert rest[0] == ([Nul] + rest)[1] == Placeholder(i)[1] == Decimal(i)[0];
  }

  lemma ReplaceMiss(c: Sym, rest: Text, pat: Text, rep: Text)
    requires pat != [] && !(pat <= [c] + rest)
    ensures Replace([c] + rest, pat, rep) == [c] + Replace(rest, pat, rep)
  {
    assert ([c] + rest)[1..] == rest;
    if |rest| + 1 >= |pat| {
      assert ([c] + rest)[..|pat|] != pat;
    }
  }

  lemma SpellStarts(us: seq<Unit>, lo: nat, hi: nat)
    requires Masked(us, lo, hi)
    ensures Spell(us) != [] ==> !Spell(us)[0].Digit?
  {
  }

  /** With everything before restored, the unmasking loop fills the remaining holes one by one. */
  lemma {:induction false} UnmaskFills(pre: Text, us: seq<Unit>, runs: seq<Text>, i: nat)
    requires i <= |runs| && NulFree(pre) && Masked(us, i, |runs|)
    requires forall k | 0 <= k < |runs| :: NulFree(runs[k])
    ensures UnmaskFrom(pre + Spell(us), runs, i) == pre + Expand(us, runs)
    decreases |runs| - i, |us|
  {
    hide Replace, Placeholder;
    if us != [] && us[0].Plain? {
      var c := us[0].c;
      UnmaskFills(pre + [c], us[1..], runs, i);
      Regroup(pre, [c], Spell(us[1..]));
      Regroup(pre, [c], Expand(us[1..], runs));
    } else if i == |runs| {
      assert us == [];
    } else if us != [] && us[0] == Hole(i) {
      UnmaskHole(pre, us[1..], runs, i);
      UnmaskFills(pre + runs[i], us[1..], runs, i + 1);
      Regroup(pre, runs[i], Expand(us[1..], runs));
    } else {
      assert Masked(us, i + 1, |runs|);
      ReplaceAbsent(us, i, |runs|, runs[i]);
      StartsWithNul(i);
      ReplaceSkips(pre, Spell(us), Placeholder(i), runs[i]);
      UnmaskFills(pre, us, runs, i + 1);
    }
  }

  lemma StartsWithNul(i: nat)
    ensures Placeholder(i) != [] && Placeholder(i)[0] == Nul
  {
  }

  /** One iteration of the unmasking loop, at the hole it is looking for. */
  lemma UnmaskHole(pre: Text, rest: seq<Unit>, runs: seq<Text>, i: nat)
    requires i < |runs| && NulFree(pre) && Masked(rest, i + 1, |runs|)
    ensures Placeholder(i) != []
    ensures Replace(pre + (Placeholder(i) + Spell(rest)), Placeholder(i), runs[i]) == (pre + runs[i]) + Spell(rest)
  {
    var pat, rep := Placeholder(i), runs[i];
    ReplaceSkips(pre, pat + Spell(rest), pat, rep);
    ReplaceAbsent(rest, i, |runs|, rep);
    assert (pat + Spell(rest))[..|pat|] == pat;
    assert (pat + Spell(rest))[|pat|..] == Spell(rest);
    Regroup(pre, rep, Spell(rest));
  }

  lemma UnmaskExpands(us: seq<Unit>, runs: seq<Text>)
    requires Masked(us, 0, |runs|) && forall k | 0 <= k < |runs| :: NulFree(runs[k])
    ensures UnmaskFrom(Spell(us), runs, 0) == Expand(us, runs)
  {
    UnmaskFills([], us, runs, 0);
    assert [] + Spell(us) == Spell(us);
    assert [] + Expand(us, runs) == Expand(us, runs);
  }

  /** Unmasking undoes masking. */
  lemma UnmaskUndoesMask(s: Text)
    requires NulFree(s)
    ensures UnmaskFrom(Spell(Units(s, 0)), Runs(s), 0) == s
  {
    hide Units, Runs, Spell, UnmaskFrom, Expand, Masked, NulFree;
    UnitsAreMasked(s, 0);
    RunsAreNulFree(s);
    UnmaskExpands(Units(s, 0), Runs(s));
    ExpandUnits(s, 0, Runs(s));
  }

  lemma ReplaceHit(pat: Text, rest: Text, rep: Text)
    requires pat != []
    ensures Replace(pat + rest, pat, rep) == rep + Replace(rest, pat, rep)
  {
    assert (pat + rest)[..|pat|] == pat && (pat + rest)[|pat|..] == rest;
  }

  // ---------------------------------------------------------------------------
  // Sentence ends

  predicate EndMark(c: Sym) {
    c.Dot? || c.Stop?
  }

  /** _SENTENCE_END.search: one past the first end mark, 0 if there is none. */
  function FirstEnd(s: Text): (n: nat)
    ensures n <= |s|
  {
    if s == [] then 0
    else if EndMark(s[0]) then 1
    else
      var n := FirstEnd(s[1..]);
      if n == 0 then 0 else 1 + n
  }

  /** Length of the first sentence: up to the first end mark outside number runs, 0 if there is none. */
  function SentenceLength(s: Text): (n: nat)
    ensures n <= |s|
    ensures n > 0 ==> EndMark(s[n - 1])
    decreases |s|
  {
    if s == [] then 0
    else
      var r := RunLength(s);
      if r == 0 && EndMark(s[0]) then 1
      else
        var step := if r > 0 then r else 1;
        var n := SentenceLength(s[step..]);
        if n == 0 then 0 else step + n
  }

  lemma {:induction false} FirstEndSkips(a: Text, s: Text)
    requires forall k | 0 <= k < |a| :: !EndMark(a[k])
    ensures FirstEnd(a + s) == if FirstEnd(s) == 0 then 0 else |a| + FirstEnd(s)
  {
    if a == [] {
      assert a + s == s;
    } else {
      assert (a + s)[1..] == a[1..] + s;
      FirstEndSkips(a[1..], s);
    }
  }

  lemma PlaceholderIsInert(i: nat)
    ensures forall k | 0 <= k < |Placeholder(i)| ::
              !EndMark(Placeholder(i)[k]) && !Placeholder(i)[k].Space? && !Placeholder(i)[k].Comma?
  {
  }

  /**
   The masked search cuts `us`, the units of `s`, after unit `j`, and the
   unmasked halves are the first `n` characters of `s` and the others.
   */
  predicate CutsSentence(us: seq<Unit>, runs: seq<Text>, s: Text, n: nat, j: nat)
    requires n <= |s|
  {
    var masked := Spell(us);
    var k := FirstEnd(masked);
    && (k == 0 <==> n == 0)
    && j <= |us|
    && (k > 0 ==>
          && masked[..k] == Spell(us[..j]) && masked[k..] == Spell(us[j..])
          && Expand(us[..j], runs) == s[..n] && Expand(us[j..], runs) == s[n..])
  }

  lemma HeadIsCut(c: Sym, rest: seq<Unit>, runs: seq<Text>, s: Text)
    requires EndMark(c) && s != [] && s[0] == c && Expand(rest, runs) == s[1..]
    ensures CutsSentence([Plain(c)] + rest, runs, s, 1, 1)
  {
    var us := [Plain(c)] + rest;
    assert us[1..] == rest && us[..1] == [Plain(c)];
    SpellOne(us[0]);
    ExpandOne(us[0], runs);
    assert Spell(us) == [c] + Spell(rest);
    assert s[..1] == [c];
  }

  lemma CutAfterHead(head: Unit, rest: seq<Unit>, runs: seq<Text>, s: Text, step: nat, n: nat, i: nat)
    requires head.Plain? ==> !EndMark(head.c)
    requires step <= |s| && Expand([head], runs) == s[..step]
    requires n <= |s| - step && CutsSentence(rest, runs, s[step..], n, i)
    ensures CutsSentence([head] + rest, runs, s, if n == 0 then 0 else step + n, i + 1)
  {
    hide Spell, Expand, FirstEnd, EndMark;
    var k := FirstEnd(Spell(rest));
    HeadIsInert(head);
    FirstEndSkips(Spell([head]), Spell(rest));
    SpellHead(head, rest);
    if k > 0 {
      SplitAfterHead(head, rest, i, k, runs);
      CutText(s, step, n);
    }
  }

  lemma CutText(s: Text, step: nat, n: nat)
    requires step <= |s| && n <= |s| - step
    ensures s[..step + n] == s[..step] + s[step..][..n] && s[step + n..] == s[step..][n..]
  {
  }

  lemma SpellHead(head: Unit, rest: seq<Unit>)
    ensures Spell([head] + rest) == Spell([head]) + Spell(rest)
  {
    assert ([head] + rest)[1..] == rest;
    SpellOne(head);
  }

  /** The length and the first unit of what stands at the head of the text: a number run, or one character. */
  function HeadLength(s: Text): (n: nat)
    requires s != []
    ensures 0 < n <= |s|
  {
    if RunLength(s) > 0 then RunLength(s) else 1
  }

  function HeadUnit(s: Text, base: nat): Unit
    requires s != []
  {
    if RunLength(s) > 0 then Hole(base) else Plain(s[0])
  }

  lemma BeyondHead(s: Text, base: nat)
    requires s != []
    ensures Units(s, base) == [HeadUnit(s, base)]
      + Units(s[HeadLength(s)..], if RunLength(s) > 0 then base + 1 else base)
    ensures RunLength(s) == 0 && EndMark(s[0]) ==> SentenceLength(s) == 1
    ensures !(RunLength(s) == 0 && EndMark(s[0])) ==>
      var n := SentenceLength(s[HeadLength(s)..]); SentenceLength(s) == if n == 0 then 0 else HeadLength(s) + n
  {
    hide RunLength, EndMark;
  }

  /** The end mark the masked search finds is the sentence's, and splits the masked text between units. */
  lemma {:induction false} SearchFindsSentence(s: Text, base: nat, runs: seq<Text>) returns (j: nat)
    requires base + |Runs(s)| <= |runs| && runs[base..base + |Runs(s)|] == Runs(s)
    ensures CutsSentence(Units(s, base), runs, s, SentenceLength(s), j)
    decreases |s|
  {
    hide RunLength, Units, Runs, SentenceLength, CutsSentence, EndMark;
    j := 0;
    if s == [] {
      NothingToCut(base, runs);
    } else if RunLength(s) == 0 && EndMark(s[0]) {
      j := 1;
      EndAtHead(s, base, runs);
    } else {
      RunsTail(s, base, runs);
      var i := SearchFindsSentence(s[HeadLength(s)..], if RunLength(s) > 0 then base + 1 else base, runs);
      j := i + 1;
      SearchBeyondHead(s, base, runs, i);
    }
  }

  lemma NothingToCut(base: nat, runs: seq<Text>)
    ensures CutsSentence(Units([], base), runs, [], SentenceLength([]), 0)
  {
  }

  lemma EndAtHead(s: Text, base: nat, runs: seq<Text>)
    requires s != [] && base + |Runs(s)| <= |runs| && runs[base..base + |Runs(s)|] == Runs(s)
    requires RunLength(s) == 0 && EndMark(s[0])
    ensures CutsSentence(Units(s, base), runs, s, SentenceLength(s), 1)
  {
    hide RunLength, Units, Runs, SentenceLength, CutsSentence, EndMark;
    BeyondHead(s, base);
    RunsTail(s, base, runs);
    ExpandUnits(s[1..], base, runs);
    HeadIsCut(s[0], Units(s[1..], base), runs, s);
  }

  lemma SearchBeyondHead(s: Text, base: nat, runs: seq<Text>, i: nat)
    requires s != [] && base + |Runs(s)| <= |runs| && runs[base..base + |Runs(s)|] == Runs(s)
    requires !(RunLength(s) == 0 && EndMark(s[0]))
    requires var rest := s[HeadLength(s)..];
      CutsSentence(Units(rest, if RunLength(s) > 0 then base + 1 else base), runs, rest, SentenceLength(rest), i)
    ensures CutsSentence(Units(s, base), runs, s, SentenceLength(s), i + 1)
  {
    hide RunLength, Units, Runs, SentenceLength, CutsSentence, EndMark, HeadLength;
    BeyondHead(s, base);
    RunsTail(s, base, runs);
    HeadExpands(s, base, runs);
    var rest := s[HeadLength(s)..];
    CutAfterHead(HeadUnit(s, base), Units(rest, if RunLength(s) > 0 then base + 1 else base), runs, s, HeadLength(s),
      SentenceLength(rest), i);
  }

  lemma HeadExpands(s: Text, base: nat, runs: seq<Text>)
    requires s != [] && (RunLength(s) > 0 ==> base < |runs| && runs[base] == s[..RunLength(s)])
    ensures Expand([HeadUnit(s, base)], runs) == s[..HeadLength(s)]
  {
    hide Expand, RunLength;
    ExpandOne(HeadUnit(s, base), runs);
    assert s[..1] == [s[0]];
  }

  lemma RunsTail(s: Text, base: nat, runs: seq<Text>)
    requires s != [] && base + |Runs(s)| <= |runs| && runs[base..base + |Runs(s)|] == Runs(s)
    ensures var r := RunLength(s);
      if r > 0 then
        && base < |runs| && runs[base] == s[..r]
        && base + 1 + |Runs(s[r..])| <= |runs| && runs[base + 1..base + 1 + |Runs(s[r..])|] == Runs(s[r..])
      else
        Runs(s) == Runs(s[1..])
  {
    hide RunLength;
    var r := RunLength(s);
    if r > 0 {
      var later := Runs(s[r..]);
      assert runs[base] == runs[base..base + |Runs(s)|][0] == s[..r];
      assert runs[base + 1..base + 1 + |later|] == runs[base..base + |Runs(s)|][1..] == later;
    }
  }

  lemma SpellOne(u: Unit)
    ensures Spell([u]) == if u.Plain? then [u.c] else Placeholder(u.index)
  {
    assert [u][1..] == [];
  }

  lemma ExpandOne(u: Unit, runs: seq<Text>)
    ensures Expand([u], runs) == if u.Plain? then [u.c] else if u.index < |runs| then runs[u.index] else []
  {
    assert [u][1..] == [];
  }

  lemma HeadIsInert(u: Unit)
    requires u.Plain? ==> !EndMark(u.c)
    ensures forall k | 0 <= k < |Spell([u])| :: !EndMark(Spell([u])[k])
  {
    SpellOne(u);
    if u.Hole? {
      PlaceholderIsInert(u.index);
    }
  }

  lemma SplitAfterHead(head: Unit, rest: seq<Unit>, i: nat, k: nat, runs: seq<Text>)
    requires i <= |rest| && k <= |Spell(rest)|
    requires Spell(rest)[..k] == Spell(rest[..i]) && Spell(rest)[k..] == Spell(rest[i..])
    ensures var us := [head] + rest;
      && Spell(us) == Spell([head]) + Spell(rest)
      && Spell(us)[..|Spell([head])| + k] == Spell(us[..i + 1])
      && Spell(us)[|Spell([head])| + k..] == Spell(us[i + 1..])
      && Expand(us[..i + 1], runs) == Expand([head], runs) + Expand(rest[..i], runs)
      && us[i + 1..] == rest[i..]
  {
    hide Spell, Expand;
    var us := [head] + rest;
    assert us[..i + 1] == [head] + rest[..i] && us[i + 1..] == rest[i..];
    ExpandConcat([head], rest[..i], runs);
    SpellHead(head, rest);
    SpellHead(head, rest[..i]);
    TakeDrop(Spell([head]), Spell(rest), k);
  }

  lemma TakeDrop(a: Text, b: Text, k: nat)
    requires k <= |b|
    ensures (a + b)[..|a| + k] == a + b[..k] && (a + b)[|a| + k..] == b[k..]
  {
  }

  // ---------------------------------------------------------------------------
  // Masked prefixes and suffixes

  lemma {:induction false} MaskedParts(us: seq<Unit>, j: nat, lo: nat, hi: nat)
    requires Masked(us, lo, hi) && j <= |us|
    ensures Masked(us[..j], lo, hi) && Masked(us[j..], lo, hi)
  {
    if j == 0 {
      assert us[..0] == [] && us[0..] == us;
    } else {
      assert us[..j][1..] == us[1..][..j - 1] && us[j..] == us[1..][j - 1..];
      match us[0] {
        case Plain(c) => MaskedParts(us[1..], j - 1, lo, hi);
        case Hole(i) =>
          MaskedParts(us[1..], j - 1, i + 1, hi);
          MaskedWeaken(us[1..][j - 1..], i + 1, lo, hi);
      }
    }
  }

  /**
   Masking the buffer, cutting after the first masked end mark and unmasking both halves
   cuts off the first sentence.
   */
  lemma MaskedCut(s: Text)
    requires NulFree(s)
    ensures var masked, runs := Spell(Units(s, 0)), Runs(s);
      var k := FirstEnd(masked);
      var n := SentenceLength(s);
      && (k == 0 <==> n == 0)
      && (k > 0 ==> UnmaskFrom(masked[..k], runs, 0) == s[..n] && UnmaskFrom(masked[k..], runs, 0) == s[n..])
  {
    hide Units, Runs, Spell, Expand, FirstEnd, SentenceLength, UnmaskFrom, Masked;
    var us, runs := Units(s, 0), Runs(s);
    var j := SearchFindsSentence(s, 0, runs);
    UnitsAreMasked(s, 0);
    RunsAreNulFree(s);
    MaskedParts(us, j, 0, |runs|);
    UnmaskExpands(us[..j], runs);
    UnmaskExpands(us[j..], runs);
  }

  // ---------------------------------------------------------------------------
  // Clauses

  /** Case-insensitive match of one ASCII lower-case letter (the long s counts as an s). */
  predicate LetterIs(c: Sym, l: char) {
    c.Letter? && (c.cp == l as int || c.cp + 32 == l as int || (l == 's' && c.cp == 0x17F))
  }

  predicate WordIs(s: Text, w: string) {
    |w| <= |s| && (forall k | 0 <= k < |w| :: LetterIs(s[k], w[k])) && (|w| == |s| || !WordChar(s[|w|]))
  }

  predicate StartsConjunction(s: Text) {
    WordIs(s, "and") || WordIs(s, "but") || WordIs(s, "or") || WordIs(s, "so") || WordIs(s, "because")
      || WordIs(s, "then")
  }

  /** Length of the clause break at the head of the text, 0 if there is none. */
  function BreakLength(s: Text): (n: nat)
    ensures n <= |s|
    ensures forall k | 0 <= k < n :: s[k].Comma? || s[k].Space?
  {
    if s == [] then 0
    else if s[0].Comma? then 1 + SpanSpace(s[1..])
    else if s[0].Space? && StartsConjunction(s[SpanSpace(s)..]) then SpanSpace(s)
    else 0
  }

  /** _CLAUSE_BREAK.split */
  function ClauseSplit(s: Text): (pieces: seq<Text>)
    ensures pieces != []
    decreases |s|
  {
    if s == [] then [[]]
    else
      var n := BreakLength(s);
      if n > 0 then [[]] + ClauseSplit(s[n..])
      else
        var later := ClauseSplit(s[1..]);
        [[s[0]] + later[0]] + later[1..]
  }

  function UnmaskPieces(pieces: seq<Text>, runs: seq<Text>): seq<Text> {
    if pieces == [] then []
    else (if Blank(pieces[0]) then [] else [Strip(UnmaskFrom(pieces[0], runs, 0))]) + UnmaskPieces(pieces[1..], runs)
  }

  /** _split_into_clauses */
  function SplitIntoClauses(sentence: Text): seq<Text> {
    UnmaskPieces(ClauseSplit(Spell(Units(sentence, 0))), Runs(sentence))
  }

  // ---------------------------------------------------------------------------
  // Clauses of the text itself

  /** The clause split, unit by unit: breaks never touch a hole. */
  function UnitSplit(us: seq<Unit>): (pieces: seq<seq<Unit>>)
    ensures pieces != []
    decreases |us|
  {
    if us == [] then [[]]
    else
      var n := BreakLength(Spell(us));
      if 0 < n <= |us| then [[]] + UnitSplit(us[n..])
      else
        var later := UnitSplit(us[1..]);
        [[us[0]] + later[0]] + later[1..]
  }

  function SpellAll(pieces: seq<seq<Unit>>): seq<Text> {
    if pieces == [] then [] else [Spell(pieces[0])] + SpellAll(pieces[1..])
  }

  /** The pieces that are not blank, filled and trimmed. */
  function ExpandPieces(pieces: seq<seq<Unit>>, runs: seq<Text>): seq<Text> {
    if pieces == [] then []
    else (if Blank(Spell(pieces[0])) then [] else [Strip(Expand(pieces[0], runs))]) + ExpandPieces(pieces[1..], runs)
  }

  /** The clauses of a sentence, without masking. */
  function Clauses(s: Text): seq<Text> {
    ExpandPieces(UnitSplit(Units(s, 0)), Runs(s))
  }

  predicate Separator(u: Unit) {
    u.Plain? && (u.c.Space? || u.c.Comma?)
  }

  lemma SpellFirst(us: seq<Unit>)
    requires us != []
    ensures Spell(us) != [] && Spell(us)[0] == if us[0].Plain? then us[0].c else Nul
  {
  }

  /** The first `n` characters of masked text are its first `n` units if they are commas and spaces. */
  lemma {:induction false} PlainPrefix(us: seq<Unit>, n: nat)
    requires n <= |Spell(us)| && forall k | 0 <= k < n :: Spell(us)[k].Comma? || Spell(us)[k].Space?
    ensures n <= |us| && (forall k | 0 <= k < n :: Separator(us[k])) && Spell(us)[n..] == Spell(us[n..])
  {
    if n > 0 {
      var t := Spell(us);
      assert t[0].Comma? || t[0].Space?;
      SpellFirst(us);
      assert Spell(us[1..]) == t[1..];
      forall k | 0 <= k < n - 1
        ensures Spell(us[1..])[k].Comma? || Spell(us[1..])[k].Space?
      {
        assert Spell(us[1..])[k] == t[k + 1];
      }
      PlainPrefix(us[1..], n - 1);
      assert us[1..][n - 1..] == us[n..] && t[1..][n - 1..] == t[n..];
    }
  }

  lemma InertHead(s: Text)
    requires s != [] && !s[0].Comma? && !s[0].Space?
    ensures ClauseSplit(s) == [[s[0]] + ClauseSplit(s[1..])[0]] + ClauseSplit(s[1..])[1..]
  {
    hide StartsConjunction;
  }

  lemma {:induction false} ClauseSplitInert(a: Text, t: Text)
    requires forall k | 0 <= k < |a| :: !a[k].Comma? && !a[k].Space?
    ensures ClauseSplit(a + t) == [a + ClauseSplit(t)[0]] + ClauseSplit(t)[1..]
  {
    if a == [] {
      assert a + t == t && a + ClauseSplit(t)[0] == ClauseSplit(t)[0];
    } else {
      ClauseSplitInert(a[1..], t);
      assert (a + t)[1..] == a[1..] + t;
      InertHead(a + t);
      hide ClauseSplit;
      assert [a[0]] + (a[1..] + ClauseSplit(t)[0]) == a + ClauseSplit(t)[0];
    }
  }

  /** Splitting the masked text is splitting its units. */
  lemma {:induction false} SplitSpelled(us: seq<Unit>)
    ensures ClauseSplit(Spell(us)) == SpellAll(UnitSplit(us))
    decreases |us|
  {
    if us == [] {
      assert SpellAll([[]]) == [Spell([])] + SpellAll([]);
    } else {
      hide StartsConjunction, Placeholder;
      var t := Spell(us);
      var n := BreakLength(t);
      if n > 0 {
        PlainPrefix(us, n);
        SplitSpelled(us[n..]);
        assert ([[]] + UnitSplit(us[n..]))[1..] == UnitSplit(us[n..]);
      } else {
        SplitSpelled(us[1..]);
        SplitOneUnit(us[0], us[1..]);
      }
    }
  }

  lemma SplitOneUnit(u: Unit, rest: seq<Unit>)
    requires BreakLength(Spell([u] + rest)) == 0
    requires ClauseSplit(Spell(rest)) == SpellAll(UnitSplit(rest))
    ensures ClauseSplit(Spell([u] + rest)) == SpellAll(UnitSplit([u] + rest))
  {
    var later, pieces := ClauseSplit(Spell(rest)), UnitSplit(rest);
    SpellHead(u, rest);
    SpellOne(u);
    SpellHead(u, pieces[0]);
    assert ([u] + rest)[1..] == rest;
    assert UnitSplit([u] + rest) == [[u] + pieces[0]] + pieces[1..];
    assert later[0] == Spell(pieces[0]) && later[1..] == SpellAll(pieces[1..]);
    assert ([[u] + pieces[0]] + pieces[1..])[1..] == pieces[1..];
    if u.Hole? {
      PlaceholderIsInert(u.index);
      ClauseSplitInert(Spell([u]), Spell(rest));
    } else {
      assert ([u.c] + Spell(rest))[1..] == Spell(rest);
    }
  }

  predicate AllMasked(pieces: seq<seq<Unit>>, hi: nat) {
    forall k | 0 <= k < |pieces| :: Masked(pieces[k], 0, hi)
  }

  lemma {:induction false} SplitMasked(us: seq<Unit>, lo: nat, hi: nat)
    requires Masked(us, lo, hi)
    ensures forall k | 0 <= k < |UnitSplit(us)| :: Masked(UnitSplit(us)[k], lo, hi)
    decreases |us|
  {
    if us != [] {
      var n := BreakLength(Spell(us));
      if 0 < n <= |us| {
        MaskedParts(us, n, lo, hi);
        SplitMasked(us[n..], lo, hi);
      } else {
        var later := UnitSplit(us[1..]);
        var lo' := if us[0].Hole? then us[0].index + 1 else lo;
        SplitMasked(us[1..], lo', hi);
        assert ([us[0]] + later[0])[1..] == later[0];
        forall k | 1 <= k < |later|
          ensures Masked(later[k], lo, hi)
        {
          MaskedWeaken(later[k], lo', lo, hi);
        }
      }
    }
  }

  lemma {:induction false} UnmaskPiecesExpands(pieces: seq<seq<Unit>>, runs: seq<Text>)
    requires AllMasked(pieces, |runs|) && forall k | 0 <= k < |runs| :: NulFree(runs[k])
    ensures UnmaskPieces(SpellAll(pieces), runs) == ExpandPieces(pieces, runs)
  {
    if pieces != [] {
      hide UnmaskFrom, Spell, Expand, Masked;
      UnmaskExpands(pieces[0], runs);
      UnmaskPiecesExpands(pieces[1..], runs);
      assert SpellAll(pieces)[1..] == SpellAll(pieces[1..]);
    }
  }

  /** Splitting and unmasking the masked sentence gives the clauses of the sentence itself. */
  lemma SplitIntoClausesIsClauses(s: Text)
    requires NulFree(s)
    ensures SplitIntoClauses(s) == Clauses(s)
  {
    hide Units, Runs, Spell, UnitSplit, ClauseSplit, UnmaskPieces, ExpandPieces, Masked;
    UnitsAreMasked(s, 0);
    RunsAreNulFree(s);
    SplitSpelled(Units(s, 0));
    SplitMasked(Units(s, 0), 0, |Runs(s)|);
    UnmaskPiecesExpands(UnitSplit(Units(s, 0)), Runs(s));
  }

  // ---------------------------------------------------------------------------
  // Clauses keep the content

  lemma {:induction false} ExpandConcat(a: seq<Unit>, b: seq<Unit>, runs: seq<Text>)
    ensures Expand(a + b, runs) == Expand(a, runs) + Expand(b, runs)
  {
    if a == [] {
      assert a + b == b;
    } else {
      assert (a + b)[1..] == a[1..] + b;
      ExpandConcat(a[1..], b, runs);
    }
  }

  lemma {:induction false} SeparatorsVanish(us: seq<Unit>, runs: seq<Text>)
    requires forall k | 0 <= k < |us| :: Separator(us[k])
    ensures Squeeze(Expand(us, runs)) == []
  {
    if us != [] {
      SeparatorsVanish(us[1..], runs);
      SqueezeConcat([us[0].c], Expand(us[1..], runs));
    }
  }

  lemma BlankVanishes(us: seq<Unit>, runs: seq<Text>)
    requires Blank(Spell(us))
    ensures Squeeze(Expand(us, runs)) == []
  {
    hide Spell, Squeeze, Expand;
    PlainPrefix(us, |Spell(us)|);
    var rest := us[|Spell(us)|..];
    assert Spell(rest) == [];
    if rest != [] {
      SpellFirst(rest);
    }
    SeparatorsVanish(us, runs);
  }

  function ContentOf(pieces: seq<seq<Unit>>, runs: seq<Text>): Text {
    if pieces == [] then [] else Squeeze(Expand(pieces[0], runs)) + ContentOf(pieces[1..], runs)
  }

  lemma UnitSplitStep(us: seq<Unit>)
    requires us != []
    ensures var n := BreakLength(Spell(us));
      if 0 < n <= |us| then UnitSplit(us) == [[]] + UnitSplit(us[n..])
      else
        var later := UnitSplit(us[1..]);
        UnitSplit(us) == [[us[0]] + later[0]] + later[1..]
  {
    hide BreakLength, Spell;
  }

  lemma ContentOfEmptyPiece(pieces: seq<seq<Unit>>, runs: seq<Text>)
    ensures ContentOf([[]] + pieces, runs) == ContentOf(pieces, runs)
  {
    assert ([[]] + pieces)[1..] == pieces;
    assert Squeeze(Expand([], runs)) == [];
    assert [] + ContentOf(pieces, runs) == ContentOf(pieces, runs);
  }

  lemma {:induction false} SplitKeeps(us: seq<Unit>, runs: seq<Text>)
    ensures ContentOf(UnitSplit(us), runs) == Squeeze(Expand(us, runs))
    decreases |us|
  {
    if us == [] {
      ContentOfEmptyPiece([], runs);
      assert [[]] + [] == UnitSplit(us);
    } else {
      hide UnitSplit, ContentOf, Squeeze, Expand, BreakLength, Spell;
      UnitSplitStep(us);
      var n := BreakLength(Spell(us));
      if 0 < n <= |us| {
        PlainPrefix(us, n);
        SplitKeeps(us[n..], runs);
        SeparatorsVanish(us[..n], runs);
        ExpandSplit(us, n, runs);
        ContentOfEmptyPiece(UnitSplit(us[n..]), runs);
      } else {
        SplitKeeps(us[1..], runs);
        PrependKeeps(us[0], UnitSplit(us[1..]), runs);
        ExpandSplit(us, 1, runs);
        assert us[..1] == [us[0]];
      }
    }
  }

  lemma ExpandSplit(us: seq<Unit>, n: nat, runs: seq<Text>)
    requires n <= |us|
    ensures Squeeze(Expand(us, runs)) == Squeeze(Expand(us[..n], runs)) + Squeeze(Expand(us[n..], runs))
  {
    hide Squeeze, Expand;
    assert us == us[..n] + us[n..];
    ExpandConcat(us[..n], us[n..], runs);
    SqueezeConcat(Expand(us[..n], runs), Expand(us[n..], runs));
  }

  lemma PrependKeeps(u: Unit, pieces: seq<seq<Unit>>, runs: seq<Text>)
    requires pieces != []
    ensures ContentOf([[u] + pieces[0]] + pieces[1..], runs) == Squeeze(Expand([u], runs)) + ContentOf(pieces, runs)
  {
    ExpandConcat([u], pieces[0], runs);
    SqueezeConcat(Expand([u], runs), Expand(pieces[0], runs));
    assert ([[u] + pieces[0]] + pieces[1..])[1..] == pieces[1..];
    Regroup(Squeeze(Expand([u], runs)), Squeeze(Expand(pieces[0], runs)), ContentOf(pieces[1..], runs));
  }

  lemma {:induction false} PiecesKeep(pieces: seq<seq<Unit>>, runs: seq<Text>)
    ensures Squeeze(Concat(ExpandPieces(pieces, runs))) == ContentOf(pieces, runs)
  {
    if pieces != [] {
      PiecesKeep(pieces[1..], runs);
      var later := ExpandPieces(pieces[1..], runs);
      if Blank(Spell(pieces[0])) {
        BlankVanishes(pieces[0], runs);
        assert ExpandPieces(pieces, runs) == [] + later == later;
      } else {
        var t := Expand(pieces[0], runs);
        StripKeeps(t);
        SqueezeConcat(Strip(t), Concat(later));
        assert ([Strip(t)] + later)[1..] == later;
      }
    }
  }

  lemma ClausesKeep(s: Text)
    ensures Squeeze(Concat(Clauses(s))) == Squeeze(s)
  {
    PiecesKeep(UnitSplit(Units(s, 0)), Runs(s));
    SplitKeeps(Units(s, 0), Runs(s));
    ExpandUnits(s, 0, Runs(s));
  }

  const MAX_WORDS_BEFORE_CLAUSE_FALLBACK := 25
  const FIRST_CHUNK_MAX_WORDS := 10

  /** _finalize_sentence */
  function FinalizeSentence(sentence: Text): seq<Text> {
    if |Words(sentence)| <= MAX_WORDS_BEFORE_CLAUSE_FALLBACK then [Strip(sentence)]
    else SplitIntoClauses(sentence)
  }

  lemma FinalizeKeeps(sentence: Text)
    requires NulFree(sentence)
    ensures Squeeze(Concat(FinalizeSentence(sentence))) == Squeeze(sentence)
  {
    if |Words(sentence)| <= MAX_WORDS_BEFORE_CLAUSE_FALLBACK {
      StripKeeps(sentence);
      assert Concat([Strip(sentence)]) == Strip(sentence) + Concat([]) == Strip(sentence);
    } else {
      SplitIntoClausesIsClauses(sentence);
      ClausesKeep(sentence);
    }
  }
}
