/**
 Deleting a fixed marker from a text (security/output_validation.py):
 re.sub(re.escape(marker), "", s). Occurrences never overlap, so deletion is a
 confluent rewriting system, and every text has one normal form.
 */
module MarkerDeletion {
  import opened Text

  predicate HeadOnce(m: Text) {
    m != [] && forall i | 1 <= i < |m| :: m[i] != m[0]
  }

  predicate At(m: Text, s: Text, i: nat) {
    i + |m| <= |s| && s[i..i + |m|] == m
  }

  /** Python's `m in s`. */
  predicate Occurs(m: Text, s: Text) {
    exists i | 0 <= i <= |s| :: At(m, s, i)
  }

  predicate EndsWith(s: Text, p: Text) {
    |p| <= |s| && s[|s| - |p|..] == p
  }

  /** One pass from the left, as re.sub makes it. */
  function Delete(m: Text, s: Text): Text
    requires m != []
    decreases |s|
  {
    if s == [] then []
    else if m <= s then Delete(m, s[|m|..])
    else [s[0]] + Delete(m, s[1..])
  }

  // ---------------------------------------------------------------------------
  // One character more

  lemma EndsOf(s: Text, t: Text, c: Sym, m: Text)
    requires m != [] && |m| <= |t| + 1
    ensures EndsWith(s + t + [c], m) <==> EndsWith(t + [c], m)
  {
    var st := s + t + [c];
    assert st == s + (t + [c]);
    assert st[|st| - |m|..] == (t + [c])[|t| + 1 - |m|..];
  }

  /** Right after an occurrence, a new one needs a full length of its own. */
  lemma NoOverlap(m: Text, t: Text, c: Sym)
    requires HeadOnce(m) && |t| + 1 < |m|
    ensures !EndsWith(m + t + [c], m)
  {
    var st := m + t + [c];
    var at := |st| - |m|;
    assert st[at] == m[at] && st[at..][0] == st[at];
  }

  lemma {:induction false} DeleteNone(m: Text, s: Text)
    requires m != [] && !Occurs(m, s)
    ensures Delete(m, s) == s
  {
    if s != [] {
      if m <= s {
        assert At(m, s, 0);
      }
      NoneInTail(m, s);
      DeleteNone(m, s[1..]);
    }
  }

  lemma NoneInTail(m: Text, s: Text)
    requires s != [] && !Occurs(m, s)
    ensures !Occurs(m, s[1..])
  {
    var t := s[1..];
    if Occurs(m, t) {
      var i :| 0 <= i <= |t| && At(m, t, i);
      assert t[i..i + |m|] == s[i + 1..i + 1 + |m|];
      assert At(m, s, i + 1);
    }
  }

  /** How deletion grows with the text: a completed marker takes back what was kept of it. */
  lemma {:induction false} DeleteSnoc(m: Text, s: Text, c: Sym)
    requires HeadOnce(m)
    ensures EndsWith(s + [c], m) ==> Delete(m, s) == Delete(m, s + [c]) + m[..|m| - 1]
    ensures !EndsWith(s + [c], m) ==> Delete(m, s + [c]) == Delete(m, s) + [c]
    decreases |s|
  {
    if m <= s {
      DeleteSnocPast(m, s, c);
    } else if m <= s + [c] {
      DeleteSnocWhole(m, s, c);
    } else if s == [] {
      assert [] + [c] == [c] && [c][1..] == [];
      assert Delete(m, [c]) == [c];
      assert !EndsWith([c], m);
    } else {
      DeleteSnoc(m, s[1..], c);
      DeleteSnocStep(m, s, c);
    }
  }

  lemma DeleteSnocPast(m: Text, s: Text, c: Sym)
    requires HeadOnce(m) && m <= s
    ensures EndsWith(s + [c], m) ==> Delete(m, s) == Delete(m, s + [c]) + m[..|m| - 1]
    ensures !EndsWith(s + [c], m) ==> Delete(m, s + [c]) == Delete(m, s) + [c]
    decreases |s|, 0
  {
    var t := s[|m|..];
    assert s == m + t && (s + [c])[|m|..] == t + [c] && m <= s + [c];
    DeleteSnoc(m, t, c);
    if |m| <= |t| + 1 {
      EndsOf(m, t, c, m);
    } else {
      NoOverlap(m, t, c);
    }
  }

  lemma DeleteSnocWhole(m: Text, s: Text, c: Sym)
    requires m != [] && !(m <= s) && m <= s + [c]
    ensures EndsWith(s + [c], m) && Delete(m, s) == Delete(m, s + [c]) + m[..|m| - 1]
  {
    assert |m| == |s| + 1;
    assert s + [c] == m && s == m[..|m| - 1];
    assert (s + [c])[|m|..] == [];
    DeleteShort(m, s);
  }

  lemma DeleteShort(m: Text, s: Text)
    requires m != [] && |s| < |m|
    ensures Delete(m, s) == s
  {
    DeleteNone(m, s);
  }

  lemma DeleteSnocStep(m: Text, s: Text, c: Sym)
    requires HeadOnce(m) && s != [] && !(m <= s) && !(m <= s + [c])
    requires EndsWith(s[1..] + [c], m) ==> Delete(m, s[1..]) == Delete(m, s[1..] + [c]) + m[..|m| - 1]
    requires !EndsWith(s[1..] + [c], m) ==> Delete(m, s[1..] + [c]) == Delete(m, s[1..]) + [c]
    ensures EndsWith(s + [c], m) ==> Delete(m, s) == Delete(m, s + [c]) + m[..|m| - 1]
    ensures !EndsWith(s + [c], m) ==> Delete(m, s + [c]) == Delete(m, s) + [c]
  {
    var t, h := s[1..], [s[0]];
    DeleteCons(m, s);
    DeleteConsSnoc(m, s, c);
    hide Delete;
    StepEnds(m, s, c);
    hide EndsWith;
    Regroup(h, Delete(m, t + [c]), m[..|m| - 1]);
    Regroup(h, Delete(m, t), [c]);
  }

  lemma DeleteConsSnoc(m: Text, s: Text, c: Sym)
    requires m != [] && s != [] && !(m <= s + [c])
    ensures Delete(m, s + [c]) == [s[0]] + Delete(m, s[1..] + [c])
  {
    assert (s + [c])[1..] == s[1..] + [c];
  }

  lemma StepEnds(m: Text, s: Text, c: Sym)
    requires m != [] && s != [] && !(m <= s + [c])
    ensures EndsWith(s + [c], m) <==> EndsWith(s[1..] + [c], m)
  {
    var t, h := s[1..], [s[0]];
    assert s == h + t;
    if |m| <= |t| + 1 {
      EndsOf(h, t, c, m);
    } else if |m| == |s| + 1 {
      assert (s + [c])[0..] == s + [c];
    }
  }

  lemma DeleteCons(m: Text, s: Text)
    requires m != [] && s != [] && !(m <= s)
    ensures Delete(m, s) == [s[0]] + Delete(m, s[1..])
  {
  }

  lemma SnocEnds(s: Text, c: Sym, m: Text, k: nat)
    requires 0 < k <= |m|
    ensures EndsWith(s + [c], m[..k]) <==> EndsWith(s, m[..k - 1]) && c == m[k - 1]
  {
    var p, q := m[..k], m[..k - 1];
    assert p == q + [m[k - 1]];
    if k <= |s| + 1 {
      assert (s + [c])[|s| + 1 - k..] == s[|s| - (k - 1)..] + [c];
      if EndsWith(s + [c], p) {
        assert s[|s| - (k - 1)..] == (s + [c])[|s| + 1 - k..][..k - 1] == p[..k - 1] == q;
        assert c == (s + [c])[|s| + 1 - k..][k - 1];
      }
    }
  }

  /** A marker still forming at the end survives deletion. */
  lemma {:induction false} DeleteKeepsPartial(m: Text, s: Text, k: nat)
    requires HeadOnce(m) && k < |m| && EndsWith(s, m[..k])
    ensures EndsWith(Delete(m, s), m[..k])
    decreases k
  {
    if k > 0 {
      var t, c := s[..|s| - 1], s[|s| - 1];
      assert s == t + [c];
      SnocEnds(t, c, m, k);
      DeleteKeepsPartial(m, t, k - 1);
      PartialIsNotWhole(m, s, k);
      DeleteSnoc(m, t, c);
      hide Delete;
      PartialGrows(m, Delete(m, t), k - 1);
    }
  }

  lemma PartialGrows(m: Text, d: Text, k: nat)
    requires k < |m| && EndsWith(d, m[..k])
    ensures EndsWith(d + [m[k]], m[..k + 1])
  {
    var e := d + [m[k]];
    assert e[|e| - (k + 1)..] == d[|d| - k..] + [m[k]];
  }

  lemma PartialIsNotWhole(m: Text, s: Text, k: nat)
    requires HeadOnce(m) && 0 < k < |m| && EndsWith(s, m[..k])
    ensures !EndsWith(s, m)
  {
    assert s[|s| - k..][0] == s[|s| - k] == m[0];
    assert |m| <= |s| ==> s[|s| - |m|..][|m| - k] == s[|s| - k];
  }

  // ---------------------------------------------------------------------------
  // Rewriting: deleting one complete marker at a time

  /** t comes from s by deleting complete markers, n of them, one after the other. */
  ghost predicate Erases(m: Text, s: Text, t: Text, n: nat)
    decreases n
  {
    if n == 0 then s == t
    else exists a: Text, b: Text :: s == a + m + b && Erases(m, a + b, t, n - 1)
  }

  /** Keeps w and reads c; a marker that c completes is dropped. */
  function Push(m: Text, w: Text, c: Sym): Text {
    if EndsWith(w + [c], m) then (w + [c])[..|w| + 1 - |m|] else w + [c]
  }

  function NormFrom(m: Text, w: Text, s: Text): Text
    decreases |s|
  {
    if s == [] then w else NormFrom(m, Push(m, w, s[0]), s[1..])
  }

  /** The normal form: what is left when no marker can be deleted any more. */
  function Norm(m: Text, s: Text): Text {
    NormFrom(m, [], s)
  }

  lemma {:induction false} NormFromConcat(m: Text, w: Text, a: Text, b: Text)
    ensures NormFrom(m, w, a + b) == NormFrom(m, NormFrom(m, w, a), b)
    decreases |a|
  {
    if a == [] {
      assert a + b == b;
    } else {
      assert (a + b)[0] == a[0] && (a + b)[1..] == a[1..] + b;
      NormFromConcat(m, Push(m, w, a[0]), a[1..], b);
    }
  }

  /** Reading a whole marker leaves what was kept before it. */
  lemma {:induction false} NormMarker(m: Text, w: Text, k: nat)
    requires HeadOnce(m) && k < |m|
    ensures NormFrom(m, w, m[..k]) == w + m[..k]
    ensures k + 1 == |m| ==> NormFrom(m, w, m) == w
    decreases k
  {
    hide NormFrom;
    if k == 0 {
      NormNothing(m, w);
      assert m[..0] == [] && w + [] == w;
    } else {
      NormMarker(m, w, k - 1);
      assert m[..k] == m[..k - 1] + [m[k - 1]];
      NormFromConcat(m, w, m[..k - 1], [m[k - 1]]);
      PushPart(m, w, k - 1);
    }
    if k + 1 == |m| {
      assert m == m[..k] + [m[k]];
      NormFromConcat(m, w, m[..k], [m[k]]);
      PushLast(m, w);
    }
  }

  lemma NormNothing(m: Text, w: Text)
    ensures NormFrom(m, w, []) == w
  {
  }

  lemma PushPart(m: Text, w: Text, k: nat)
    requires HeadOnce(m) && k + 1 < |m|
    ensures NormFrom(m, w + m[..k], [m[k]]) == w + m[..k + 1]
  {
    var v := w + m[..k];
    assert v + [m[k]] == w + m[..k + 1];
    if EndsWith(w + m[..k + 1], m) {
      assert EndsWith(w + m[..k + 1], m[..k + 1]);
      PartialIsNotWhole(m, w + m[..k + 1], k + 1);
    }
    assert [m[k]][1..] == [];
  }

  lemma PushLast(m: Text, w: Text)
    requires m != []
    ensures NormFrom(m, w + m[..|m| - 1], [m[|m| - 1]]) == w
  {
    var v, c := w + m[..|m| - 1], m[|m| - 1];
    assert v + [c] == w + m;
    assert EndsWith(w + m, m) && (w + m)[..|w|] == w;
    assert [c][1..] == [];
  }

  lemma NormSkipsMarker(m: Text, a: Text, b: Text)
    requires HeadOnce(m)
    ensures Norm(m, a + m + b) == Norm(m, a + b)
  {
    NormFromConcat(m, [], a + m, b);
    NormFromConcat(m, [], a, m);
    NormMarker(m, Norm(m, a), |m| - 1);
    NormFromConcat(m, [], a, b);
  }

  lemma {:induction false} ErasesKeepsNorm(m: Text, s: Text, t: Text, n: nat)
    requires HeadOnce(m) && Erases(m, s, t, n)
    ensures Norm(m, s) == Norm(m, t)
    decreases n
  {
    if n > 0 {
      var a: Text, b: Text :| s == a + m + b && Erases(m, a + b, t, n - 1);
      NormSkipsMarker(m, a, b);
      ErasesKeepsNorm(m, a + b, t, n - 1);
    }
  }

  lemma {:induction false} NormFromFree(m: Text, w: Text, s: Text)
    requires m != []
    ensures !Occurs(m, w) ==> !Occurs(m, NormFrom(m, w, s))
    ensures !Occurs(m, w + s) ==> NormFrom(m, w, s) == w + s
    decreases |s|
  {
    if s == [] {
      assert w + s == w;
    } else {
      if !Occurs(m, w) {
        PushFree(m, w, s[0]);
      }
      assert w + [s[0]] + s[1..] == w + s;
      if EndsWith(w + [s[0]], m) {
        var i := |w| + 1 - |m|;
        assert (w + s)[i..i + |m|] == (w + [s[0]])[i..] == m;
        assert At(m, w + s, i);
      }
      NormFromFree(m, Push(m, w, s[0]), s[1..]);
    }
  }

  lemma PushFree(m: Text, w: Text, c: Sym)
    requires m != [] && !Occurs(m, w)
    ensures !Occurs(m, Push(m, w, c))
  {
    var p := Push(m, w, c);
    if Occurs(m, p) {
      var i :| 0 <= i <= |p| && At(m, p, i);
      PushedBefore(m, w, c, i);
    }
  }

  lemma PushedLength(m: Text, w: Text, c: Sym)
    requires m != []
    ensures EndsWith(w + [c], m) ==> Push(m, w, c) <= w
  {
  }

  lemma EndsAt(m: Text, s: Text, i: nat)
    requires At(m, s, i) && i + |m| == |s|
    ensures EndsWith(s, m)
  {
  }

  lemma AtCovers(m: Text, s: Text, i: nat, k: nat)
    requires At(m, s, i) && i <= k < i + |m|
    ensures s[k] == m[k - i]
  {
    assert s[i..i + |m|][k - i] == s[k];
  }

  lemma PushedBefore(m: Text, w: Text, c: Sym, i: nat)
    requires m != [] && At(m, Push(m, w, c), i)
    ensures Occurs(m, w)
  {
    hide EndsWith;
    var v, p := w + [c], Push(m, w, c);
    if p == v && i + |m| == |v| {
      EndsAt(m, v, i);
    }
    PushedLength(m, w, c);
    assert i + |m| <= |w|;
    assert p[i..i + |m|] == w[i..i + |m|];
    assert At(m, w, i);
  }

  lemma {:induction false} ErasesTwice(m: Text, s: Text, t: Text, u: Text, n: nat, k: nat)
    requires Erases(m, s, t, n) && Erases(m, t, u, k)
    ensures Erases(m, s, u, n + k)
    decreases n
  {
    if n > 0 {
      var a: Text, b: Text :| s == a + m + b && Erases(m, a + b, t, n - 1);
      ErasesTwice(m, a + b, t, u, n - 1, k);
    }
  }

  lemma {:induction false} ErasesInside(m: Text, p: Text, s: Text, q: Text, t: Text, n: nat)
    requires Erases(m, s, t, n)
    ensures Erases(m, p + s + q, p + t + q, n)
    decreases n
  {
    if n > 0 {
      var a: Text, b: Text :| s == a + m + b && Erases(m, a + b, t, n - 1);
      ErasesInside(m, p, a + b, q, t, n - 1);
      assert p + s + q == (p + a) + m + (b + q);
      assert p + (a + b) + q == (p + a) + (b + q);
    }
  }

  lemma EraseOne(m: Text, s: Text, a: Text, b: Text)
    requires s == a + m + b
    ensures Erases(m, s, a + b, 1)
  {
    assert Erases(m, a + b, a + b, 0);
  }

  /** One pass only deletes complete markers. */
  lemma {:induction false} DeleteErases(m: Text, s: Text) returns (n: nat)
    requires m != []
    ensures Erases(m, s, Delete(m, s), n)
    decreases |s|
  {
    hide Erases, Delete;
    if s == [] {
      n := EraseNothing(m);
    } else if m <= s {
      var k := DeleteErases(m, s[|m|..]);
      DeleteHit(m, s);
      ErasePrefix(m, s);
      ErasesTwice(m, s, s[|m|..], Delete(m, s), 1, k);
      n := 1 + k;
    } else {
      n := DeleteErases(m, s[1..]);
      DeleteCons(m, s);
      ErasesCons(m, s, Delete(m, s[1..]), n);
    }
  }

  lemma EraseNothing(m: Text) returns (n: nat)
    requires m != []
    ensures Erases(m, [], Delete(m, []), n)
  {
    n := 0;
  }

  lemma DeleteHit(m: Text, s: Text)
    requires m != [] && m <= s
    ensures Delete(m, s) == Delete(m, s[|m|..])
  {
  }

  lemma ErasesCons(m: Text, s: Text, t: Text, n: nat)
    requires s != [] && Erases(m, s[1..], t, n)
    ensures Erases(m, s, [s[0]] + t, n)
  {
    hide Erases;
    ErasesInside(m, [s[0]], s[1..], [], t, n);
    assert [s[0]] + s[1..] + [] == s && [s[0]] + t + [] == [s[0]] + t;
  }

  lemma ErasePrefix(m: Text, s: Text)
    requires m <= s
    ensures Erases(m, s, s[|m|..], 1)
  {
    hide Erases;
    assert s == [] + m + s[|m|..] && [] + s[|m|..] == s[|m|..];
    EraseOne(m, s, [], s[|m|..]);
  }

  /** The normal form is reached by deletions. */
  lemma {:induction false} NormErases(m: Text, w: Text, s: Text) returns (n: nat)
    requires m != []
    ensures Erases(m, w + s, NormFrom(m, w, s), n)
    decreases |s|
  {
    if s == [] {
      assert w + s == w;
      n := 0;
    } else {
      var v := w + [s[0]];
      var k := NormErases(m, Push(m, w, s[0]), s[1..]);
      assert w + s == v + s[1..];
      n := k;
      if EndsWith(v, m) {
        var a := v[..|v| - |m|];
        assert v == a + m;
        assert v + s[1..] == a + m + s[1..];
        EraseOne(m, w + s, a, s[1..]);
        ErasesTwice(m, w + s, a + s[1..], NormFrom(m, w, s), 1, k);
        n := 1 + k;
      }
    }
  }

  /**
   Confluence: in whatever order complete markers are deleted from s, once none is
   left the result is Norm(m, s), and that result can be reached.
   */
  lemma NormalForm(m: Text, s: Text, t: Text)
    requires HeadOnce(m)
    ensures t == Norm(m, s) <==> !Occurs(m, t) && exists n: nat :: Erases(m, s, t, n)
  {
    hide NormFrom, Erases;
    assert !Occurs(m, []);
    NormFromFree(m, [], s);
    var n := NormErases(m, [], s);
    assert [] + s == s;
    assert Erases(m, s, Norm(m, s), n);
    if !Occurs(m, t) && exists k: nat :: Erases(m, s, t, k) {
      var k: nat :| Erases(m, s, t, k);
      ErasesKeepsNorm(m, s, t, k);
      assert [] + t == t;
      NormFromFree(m, [], t);
    }
  }
}
