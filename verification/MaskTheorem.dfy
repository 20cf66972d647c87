/**
 When unmasking undoes masking (speech/chunker.py, `_mask_number_runs` and
 `_unmask_number_runs`), for every text, also one with NULs of its own: exactly if
 no run's placeholder is already spelled out in the text before that run, a NUL
 being appended to it.
 */
module MaskTheorem {
  import opened Text
  import opened MarkerDeletion
  import opened Chunker

  /** The units of a text: no digit outside holes, and the holes numbered lo, lo + 1, ... hi - 1. */
  predicate Numbered(us: seq<Unit>, lo: nat, hi: nat) {
    if us == [] then lo == hi
    else if us[0].Plain? then !us[0].c.Digit? && Numbered(us[1..], lo, hi)
    else us[0].index == lo < hi && Numbered(us[1..], lo + 1, hi)
  }

  lemma {:induction false} UnitsAreNumbered(s: Text, base: nat)
    ensures Numbered(Units(s, base), base, base + |Runs(s)|)
    decreases |s|
  {
    hide RunLength;
    if s != [] {
      var n := RunLength(s);
      if n > 0 {
        UnitsAreNumbered(s[n..], base + 1);
        assert Units(s, base)[1..] == Units(s[n..], base + 1);
      } else {
        UnitsAreNumbered(s[1..], base);
        assert Units(s, base)[1..] == Units(s[1..], base);
      }
    }
  }

  /** Number runs are not empty and have no NUL. */
  predicate RunsProper(runs: seq<Text>) {
    forall k | 0 <= k < |runs| :: runs[k] != [] && NulFree(runs[k])
  }

  lemma {:induction false} RunsAreProper(s: Text)
    ensures RunsProper(Runs(s))
    decreases |s|
  {
    if s != [] {
      RunsAreProper(if RunLength(s) > 0 then s[RunLength(s)..] else s[1..]);
      assert NulFree(s[..RunLength(s)]);
    }
  }

  // ---------------------------------------------------------------------------
  // Nothing to find in what is still masked

  lemma SpellNoDigit(us: seq<Unit>, lo: nat, hi: nat)
    requires Numbered(us, lo, hi)
    ensures Spell(us) != [] ==> !Spell(us)[0].Digit?
  {
  }

  /** Later placeholders hide no earlier one. */
  lemma {:induction false} ReplaceFindsNothing(us: seq<Unit>, i: nat, lo: nat, hi: nat, rep: Text)
    requires i < lo && Numbered(us, lo, hi)
    ensures Replace(Spell(us), Placeholder(i), rep) == Spell(us)
    decreases |us|
  {
    if us != [] {
      var lo' := if us[0].Plain? then lo else lo + 1;
      ReplaceFindsNothing(us[1..], i, lo', hi, rep);
      SpellNoDigit(us[1..], lo', hi);
      SpellHead(us[0], us[1..]);
      SpellOne(us[0]);
      assert [us[0]] + us[1..] == us;
      var rest := Spell(us[1..]);
      StartsWithNul(i);
      hide Replace, Placeholder, Spell, Numbered;
      if us[0].Hole? {
        ReplacePastHole(rest, i, us[0].index, rep);
      } else if us[0].c == Nul {
        ReplacePastNul(i, rest, rep);
      } else {
        assert NulFree([us[0].c]);
        ReplaceSkips([us[0].c], rest, Placeholder(i), rep);
      }
    }
  }

  // ---------------------------------------------------------------------------
  // One iteration finds its own placeholder first

  /** Text in which the pattern does not start is passed over. */
  lemma {:induction false} ReplacePasses(pre: Text, s: Text, pat: Text, rep: Text)
    requires pat != [] && forall p | 0 <= p < |pre| :: !At(pat, pre + s, p)
    ensures Replace(pre + s, pat, rep) == pre + Replace(s, pat, rep)
    decreases |pre|
  {
    if pre == [] {
      assert pre + s == s && pre + Replace(s, pat, rep) == Replace(s, pat, rep);
    } else {
      var t := pre[1..] + s;
      assert pre + s == [pre[0]] + t && pre == [pre[0]] + pre[1..];
      forall p | 0 <= p < |pre[1..]| ensures !At(pat, t, p) {
        AtCons(pre[0], t, pat, p);
      }
      ReplacePasses(pre[1..], s, pat, rep);
      NoPrefix(pat, pre + s);
      hide Replace, At;
      ReplaceMiss(pre[0], t, pat, rep);
      Regroup([pre[0]], pre[1..], Replace(s, pat, rep));
    }
  }

  lemma AtCons(c: Sym, t: Text, pat: Text, p: nat)
    ensures At(pat, [c] + t, p + 1) <==> At(pat, t, p)
  {
    if p + |pat| <= |t| {
      assert ([c] + t)[p + 1..p + 1 + |pat|] == t[p..p + |pat|];
    }
  }

  lemma NoPrefix(pat: Text, s: Text)
    requires !At(pat, s, 0)
    ensures !(pat <= s)
  {
    assert |pat| <= |s| ==> s[0..0 + |pat|] == s[..|pat|];
  }

  /** A placeholder that starts before a NUL ends with it or before: only its ends are NULs. */
  lemma StartsBeforeNul(pre: Text, more: Text, i: nat, p: nat)
    requires p < |pre| && At(Placeholder(i), pre + ([Nul] + more), p)
    ensures At(Placeholder(i), pre + [Nul], p)
  {
    var pat, t := Placeholder(i), pre + ([Nul] + more);
    var k := |pre| - p;
    if k < |pat| - 1 {
      AtCovers(pat, t, p, |pre|);
      DigitsInside(i, k);
      assert false;
    }
    assert t[p..p + |pat|] == (pre + [Nul])[p..p + |pat|];
  }

  lemma DigitsInside(i: nat, k: nat)
    requires 0 < k < |Placeholder(i)| - 1
    ensures Placeholder(i)[k].Digit?
  {
    assert Placeholder(i)[k] == Decimal(i)[k - 1];
  }

  lemma HoleStartsWithNul(i: nat, rest: Text) returns (more: Text)
    ensures Placeholder(i) + rest == [Nul] + more
  {
    more := Decimal(i) + [Nul] + rest;
  }

  /** If the placeholder does not stand before its hole, the iteration fills just that hole. */
  lemma IterationFills(pre: Text, rest: seq<Unit>, i: nat, hi: nat, run: Text)
    requires Numbered(rest, i + 1, hi) && !Occurs(Placeholder(i), pre + [Nul])
    ensures Replace(pre + (Placeholder(i) + Spell(rest)), Placeholder(i), run) == pre + (run + Spell(rest))
  {
    var pat, tail := Placeholder(i), Spell(rest);
    var more := HoleStartsWithNul(i, tail);
    forall p | 0 <= p < |pre| ensures !At(pat, pre + (pat + tail), p) {
      if At(pat, pre + (pat + tail), p) {
        StartsBeforeNul(pre, more, i, p);
        assert false;
      }
    }
    hide Placeholder, Replace, Numbered, Spell;
    StartsWithNul(i);
    ReplacePasses(pre, pat + tail, pat, run);
    ReplaceHit(pat, tail, run);
    ReplaceFindsNothing(rest, i, i + 1, hi, run);
  }

  // ---------------------------------------------------------------------------
  // A wrong replacement is never repaired

  /** The texts agree up to q, where the original has a NUL and the other has not. */
  predicate Off(t: Text, s: Text, q: nat) {
    q < |s| && q < |t| && t[..q] == s[..q] && s[q] == Nul && t[q] != Nul
  }

  lemma OffCons(c: Sym, t: Text, s: Text, q: nat)
    requires s != [] && s[0] == c && Off(t, s[1..], q)
    ensures Off([c] + t, s, q + 1)
  {
    assert s == [c] + s[1..];
    assert ([c] + t)[..q + 1] == [c] + t[..q] && s[..q + 1] == [c] + s[1..][..q];
  }

  lemma OffTail(t: Text, s: Text, q: nat)
    requires Off(t, s, q) && q > 0
    ensures t[0] == s[0] && Off(t[1..], s[1..], q - 1)
  {
    assert t[..q][0] == t[0] && s[..q][0] == s[0];
    assert t[1..][..q - 1] == t[..q][1..] && s[1..][..q - 1] == s[..q][1..];
  }

  lemma {:induction false} OffStays(t: Text, s: Text, q: nat, pat: Text, rep: Text) returns (q': nat)
    requires Off(t, s, q) && pat != [] && pat[0] == Nul && rep != [] && rep[0] != Nul
    ensures Off(Replace(t, pat, rep), s, q')
    decreases |t|
  {
    if |t| < |pat| {
      q' := q;
    } else if t[..|pat|] == pat {
      assert t[0] == t[..|pat|][0] == Nul;
      if q > 0 {
        OffTail(t, s, q);
      }
      q' := 0;
    } else if q == 0 {
      q' := 0;
    } else {
      OffTail(t, s, q);
      var r := OffStays(t[1..], s[1..], q - 1, pat, rep);
      hide Replace;
      ReplaceMissAt(t, pat, rep);
      OffCons(t[0], Replace(t[1..], pat, rep), s, r);
      q' := r + 1;
    }
  }

  lemma ReplaceMissAt(t: Text, pat: Text, rep: Text)
    requires 0 < |pat| <= |t| && t[..|pat|] != pat
    ensures Replace(t, pat, rep) == [t[0]] + Replace(t[1..], pat, rep)
  {
  }

  lemma {:induction false} OffForGood(t: Text, s: Text, q: nat, runs: seq<Text>, i: nat)
    requires Off(t, s, q) && RunsProper(runs) && i <= |runs|
    ensures UnmaskFrom(t, runs, i) != s
    decreases |runs| - i
  {
    hide Replace, Placeholder;
    if i < |runs| {
      StartsWithNul(i);
      var r := OffStays(t, s, q, Placeholder(i), runs[i]);
      OffForGood(Replace(t, Placeholder(i), runs[i]), s, r, runs, i + 1);
    }
  }

  /** Replacing a match that the original text has too puts the result off. */
  lemma {:induction false} WrongHit(t: Text, s: Text, pat: Text, rep: Text, p: nat) returns (q: nat)
    requires pat != [] && pat[0] == Nul && rep != [] && rep[0] != Nul
    requires At(pat, t, p) && p < |s| && t[..p + 1] == s[..p + 1]
    ensures Off(Replace(t, pat, rep), s, q)
    decreases |t|
  {
    assert t[0] == t[..p + 1][0] == s[..p + 1][0] == s[0];
    if t[..|pat|] == pat {
      assert t[0] == t[..|pat|][0] == Nul;
      q := 0;
    } else {
      assert t[0..0 + |pat|] == t[..|pat|];
      assert p > 0;
      assert t == [t[0]] + t[1..];
      AtCons(t[0], t[1..], pat, p - 1);
      assert t[1..][..p] == t[..p + 1][1..] && s[1..][..p] == s[..p + 1][1..];
      var r := WrongHit(t[1..], s[1..], pat, rep, p - 1);
      hide Replace, At;
      ReplaceMissAt(t, pat, rep);
      OffCons(t[0], Replace(t[1..], pat, rep), s, r);
      q := r + 1;
    }
  }

  /** If the placeholder does stand before its hole, the iteration goes wrong. */
  lemma IterationErrs(pre: Text, rest: seq<Unit>, i: nat, runs: seq<Text>, s: Text) returns (q: nat)
    requires i < |runs| && RunsProper(runs) && Occurs(Placeholder(i), pre + [Nul]) && pre <= s
    ensures Off(Replace(pre + (Placeholder(i) + Spell(rest)), Placeholder(i), runs[i]), s, q)
  {
    var pat, tail := Placeholder(i), Spell(rest);
    var more := HoleStartsWithNul(i, tail);
    var p :| 0 <= p <= |pre + [Nul]| && At(pat, pre + [Nul], p);
    var t := pre + (pat + tail);
    assert t == pre + [Nul] + more;
    assert t[p..p + |pat|] == (pre + [Nul])[p..p + |pat|];
    assert |pat| >= 2;
    assert t[..p + 1] == pre[..p + 1] == s[..p + 1];
    StartsWithNul(i);
    q := WrongHit(t, s, pat, runs[i], p);
  }

  // ---------------------------------------------------------------------------
  // The theorem

  /** Unit by unit: no hole's placeholder stands in the text before it, with a NUL appended. */
  predicate Clear(pre: Text, us: seq<Unit>, runs: seq<Text>)
    decreases |us|
  {
    us == [] ||
    if us[0].Plain? then Clear(pre + [us[0].c], us[1..], runs)
    else
      us[0].index < |runs| && !Occurs(Placeholder(us[0].index), pre + [Nul])
      && Clear(pre + runs[us[0].index], us[1..], runs)
  }

  lemma {:induction false} UnmasksIfClear(pre: Text, us: seq<Unit>, runs: seq<Text>, i: nat)
    requires i <= |runs| && Numbered(us, i, |runs|) && RunsProper(runs)
    ensures UnmaskFrom(pre + Spell(us), runs, i) == pre + Expand(us, runs) <==> Clear(pre, us, runs)
    decreases |us|, 1
  {
    hide Replace, Placeholder, Occurs, RunsProper;
    if us != [] {
      if us[0].Plain? {
        var c := us[0].c;
        UnmasksIfClear(pre + [c], us[1..], runs, i);
        Regroup(pre, [c], Spell(us[1..]));
        Regroup(pre, [c], Expand(us[1..], runs));
      } else {
        UnmasksHole(pre, us[1..], runs, i);
      }
    }
  }

  lemma {:induction false} UnmasksHole(pre: Text, rest: seq<Unit>, runs: seq<Text>, i: nat)
    requires i < |runs| && Numbered(rest, i + 1, |runs|) && RunsProper(runs)
    ensures UnmaskFrom(pre + (Placeholder(i) + Spell(rest)), runs, i) == pre + (runs[i] + Expand(rest, runs))
      <==> !Occurs(Placeholder(i), pre + [Nul]) && Clear(pre + runs[i], rest, runs)
    decreases |rest| + 1, 0
  {
    StartsWithNul(i);
    hide Replace, Placeholder, Occurs, RunsProper, Spell, Expand, Clear, Numbered;
    var t, s := pre + (Placeholder(i) + Spell(rest)), pre + (runs[i] + Expand(rest, runs));
    assert UnmaskFrom(t, runs, i) == UnmaskFrom(Replace(t, Placeholder(i), runs[i]), runs, i + 1);
    hide UnmaskFrom;
    Regroup(pre, runs[i], Expand(rest, runs));
    if Occurs(Placeholder(i), pre + [Nul]) {
      var q := IterationErrs(pre, rest, i, runs, s);
      OffForGood(Replace(t, Placeholder(i), runs[i]), s, q, runs, i + 1);
    } else {
      IterationFills(pre, rest, i, |runs|, runs[i]);
      Regroup(pre, runs[i], Spell(rest));
      UnmasksIfClear(pre + runs[i], rest, runs, i + 1);
    }
  }

  /** Where the k-th number run of the text starts. */
  function RunStart(s: Text, k: nat): (n: nat)
    requires k < |Runs(s)|
    ensures n <= |s|
    decreases |s|
  {
    var n := RunLength(s);
    if n > 0 then (if k == 0 then 0 else n + RunStart(s[n..], k - 1)) else 1 + RunStart(s[1..], k)
  }

  /** The placeholder of run k does not stand in the text before the run, with a NUL appended. */
  predicate NotSpelledBefore(pre: Text, s: Text, base: nat, k: nat)
    requires k < |Runs(s)|
  {
    !Occurs(Placeholder(base + k), pre + s[..RunStart(s, k)] + [Nul])
  }

  predicate NeverSpelledBefore(pre: Text, s: Text, base: nat) {
    forall k | 0 <= k < |Runs(s)| :: NotSpelledBefore(pre, s, base, k)
  }

  lemma {:induction false} ClearMeans(pre: Text, s: Text, base: nat, runs: seq<Text>)
    requires base + |Runs(s)| <= |runs| && runs[base..base + |Runs(s)|] == Runs(s)
    ensures Clear(pre, Units(s, base), runs) <==> NeverSpelledBefore(pre, s, base)
    decreases |s|
  {
    hide Occurs, Placeholder, RunLength;
    if s != [] {
      var n := RunLength(s);
      RunsTail(s, base, runs);
      if n > 0 {
        ClearMeans(pre + s[..n], s[n..], base + 1, runs);
        assert Units(s, base)[1..] == Units(s[n..], base + 1);
        HoleMeans(pre, s, base);
      } else {
        ClearMeans(pre + [s[0]], s[1..], base, runs);
        assert Units(s, base)[1..] == Units(s[1..], base);
        PlainMeans(pre, s, base);
      }
    }
  }

  lemma HoleMeans(pre: Text, s: Text, base: nat)
    requires RunLength(s) > 0
    ensures var n := RunLength(s);
      NeverSpelledBefore(pre, s, base) <==>
      !Occurs(Placeholder(base), pre + [Nul]) && NeverSpelledBefore(pre + s[..n], s[n..], base + 1)
  {
    hide Occurs, Placeholder, RunLength;
    var n := RunLength(s);
    var pre', s', base' := pre + s[..n], s[n..], base + 1;
    assert |Runs(s)| == 1 + |Runs(s')|;
    assert pre + s[..0] + [Nul] == pre + [Nul];
    assert NotSpelledBefore(pre, s, base, 0) <==> !Occurs(Placeholder(base), pre + [Nul]);
    forall k | 0 <= k < |Runs(s')|
      ensures NotSpelledBefore(pre, s, base, k + 1) <==> NotSpelledBefore(pre', s', base', k)
    {
      var at := RunStart(s', k);
      assert s[..n + at] == s[..n] + s'[..at];
      assert pre + (s[..n] + s'[..at]) == pre' + s'[..at];
    }
    if NeverSpelledBefore(pre', s', base') {
      forall k | 0 < k < |Runs(s)| ensures NotSpelledBefore(pre, s, base, k) {
        assert NotSpelledBefore(pre', s', base', k - 1);
      }
    }
  }

  lemma PlainMeans(pre: Text, s: Text, base: nat)
    requires s != [] && RunLength(s) == 0
    ensures NeverSpelledBefore(pre, s, base) <==> NeverSpelledBefore(pre + [s[0]], s[1..], base)
  {
    hide Occurs, Placeholder, RunLength;
    var pre', s' := pre + [s[0]], s[1..];
    assert Runs(s) == Runs(s');
    forall k | 0 <= k < |Runs(s)|
      ensures NotSpelledBefore(pre, s, base, k) <==> NotSpelledBefore(pre', s', base, k)
    {
      var at := RunStart(s', k);
      assert s[..1 + at] == [s[0]] + s'[..at];
      assert pre + ([s[0]] + s'[..at]) == pre' + s'[..at];
    }
  }

  /**
   Unmasking undoes masking exactly if no run's placeholder stands in the text before
   that run, with a NUL appended.
   */
  lemma UnmaskUndoesMaskExactly(s: Text)
    ensures UnmaskFrom(Spell(Units(s, 0)), Runs(s), 0) == s <==>
      forall k | 0 <= k < |Runs(s)| :: !Occurs(Placeholder(k), s[..RunStart(s, k)] + [Nul])
  {
    hide Occurs, Placeholder, Units, Runs, Spell, Expand, UnmaskFrom, Clear, Numbered, RunsProper, RunStart;
    var us, runs := Units(s, 0), Runs(s);
    UnitsAreNumbered(s, 0);
    RunsAreProper(s);
    UnmasksIfClear([], us, runs, 0);
    ExpandUnits(s, 0, runs);
    assert [] + Spell(us) == Spell(us) && [] + Expand(us, runs) == Expand(us, runs);
    ClearMeans([], s, 0, runs);
    forall k | 0 <= k < |runs|
      ensures NotSpelledBefore([], s, 0, k) <==> !Occurs(Placeholder(k), s[..RunStart(s, k)] + [Nul])
    {
      assert [] + s[..RunStart(s, k)] == s[..RunStart(s, k)];
    }
  }

  /** A text that is not restored: NUL 1 NUL 2, where the 1 between NULs is taken for the second placeholder. */
  lemma UnmaskNeedsNulFree()
    ensures var s := [Nul, Digit(49), Nul, Digit(50)]; UnmaskFrom(Spell(Units(s, 0)), Runs(s), 0) != s
  {
    hide Units, Runs, Spell, UnmaskFrom, RunStart, Occurs, Placeholder;
    var s: Text := [Nul, Digit(49), Nul, Digit(50)];
    TwoRuns(s);
    SpelledBefore(s);
    UnmaskUndoesMaskExactly(s);
  }

  lemma SpelledBefore(s: Text)
    requires s == [Nul, Digit(49), Nul, Digit(50)]
    ensures Occurs(Placeholder(1), s[..3] + [Nul])
  {
    var before, pat := s[..3] + [Nul], Placeholder(1);
    assert Decimal(1) == [Digit(49)];
    assert pat == [Nul, Digit(49), Nul];
    assert before[0..0 + |pat|] == pat;
    assert At(pat, before, 0);
  }

  lemma TwoRuns(s: Text)
    requires s == [Nul, Digit(49), Nul, Digit(50)]
    ensures |Runs(s)| == 2 && RunStart(s, 1) == 3
  {
    var a, b, c := s[1..], s[2..], s[3..];
    assert a[1..] == b && b[1..] == c && c[1..] == [];
    RunLengths(s);
    hide RunLength;
    assert |Runs(c)| == 1 && RunStart(c, 0) == 0;
    assert |Runs(b)| == 1 && RunStart(b, 0) == 1;
    assert |Runs(a)| == 2 && RunStart(a, 1) == 2;
  }

  lemma RunLengths(s: Text)
    requires s == [Nul, Digit(49), Nul, Digit(50)]
    ensures RunLength(s) == 0 && RunLength(s[1..]) == 1 && RunLength(s[2..]) == 0 && RunLength(s[3..]) == 1
  {
    assert s[1..][1..] == [Nul, Digit(50)];
    assert s[3..][1..] == [];
  }
}
