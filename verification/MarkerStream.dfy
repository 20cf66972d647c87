/**
 marker_safe_split (security/output_validation.py) over a whole stream: text
 arrives in deltas, each call deletes the markers of what is buffered, releases
 the safe part and keeps a tail in which a marker may still be forming.
 */
module MarkerStream {
  import opened Text
  import opened MarkerDeletion

  /** What may be released, and the tail to go on buffering. */
  function MarkerSafeSplit(m: Text, buffered: Text): (r: (Text, Text))
    requires m != []
    ensures r.0 + r.1 == Delete(m, buffered)
    ensures |r.1| == if |Delete(m, buffered)| < |m| then |Delete(m, buffered)| else |m| - 1
  {
    var cleaned := Delete(m, buffered);
    if |cleaned| <= |m| - 1 then ([], cleaned)
    else
      var splitAt := |cleaned| - (|m| - 1);
      (cleaned[..splitAt], cleaned[splitAt..])
  }

  datatype Held = Held(released: Text, tail: Text)

  function Arrive(m: Text, st: Held, delta: Text): Held
    requires m != []
  {
    var (safe, tail) := MarkerSafeSplit(m, st.tail + delta);
    Held(st.released + safe, tail)
  }

  function ArriveAll(m: Text, st: Held, deltas: seq<Text>): Held
    requires m != []
    decreases |deltas|
  {
    if deltas == [] then st else ArriveAll(m, Arrive(m, st, deltas[0]), deltas[1..])
  }

  /** All the text the reader sees: what was released, and the tail when the stream ends. */
  function Output(m: Text, deltas: seq<Text>): Text
    requires m != []
  {
    var st := ArriveAll(m, Held([], []), deltas);
    st.released + st.tail
  }

  lemma ArriveKeeps(m: Text, st: Held, delta: Text)
    requires m != []
    ensures var st' := Arrive(m, st, delta); st'.released + st'.tail == st.released + Delete(m, st.tail + delta)
  {
    var (safe, tail) := MarkerSafeSplit(m, st.tail + delta);
    Regroup(st.released, safe, tail);
  }

  // ---------------------------------------------------------------------------
  // Every cut: only complete markers disappear

  lemma {:induction false} ArriveAllErases(m: Text, p: Text, st: Held, deltas: seq<Text>, k: nat) returns (n: nat)
    requires m != [] && Erases(m, p, st.released + st.tail, k)
    ensures var end := ArriveAll(m, st, deltas); Erases(m, p + Concat(deltas), end.released + end.tail, n)
    decreases |deltas|
  {
    hide Erases, Delete, Arrive;
    if deltas == [] {
      assert p + [] == p;
      n := k;
    } else {
      var d := deltas[0];
      var j := ArriveErases(m, p, st, d, k);
      n := ArriveAllErases(m, p + d, Arrive(m, st, d), deltas[1..], j);
      Regroup(p, d, Concat(deltas[1..]));
    }
  }

  lemma ArriveErases(m: Text, p: Text, st: Held, d: Text, k: nat) returns (n: nat)
    requires m != [] && Erases(m, p, st.released + st.tail, k)
    ensures var st' := Arrive(m, st, d); Erases(m, p + d, st'.released + st'.tail, n)
  {
    hide Erases, Delete, Arrive;
    var held, arrived := st.released + st.tail, st.tail + d;
    ErasesInside(m, [], p, d, held, k);
    assert [] + p + d == p + d && [] + held + d == held + d;
    Regroup(st.released, st.tail, d);
    var j := DeleteErases(m, arrived);
    ErasesInside(m, st.released, arrived, [], Delete(m, arrived), j);
    assert st.released + arrived + [] == held + d;
    var after := st.released + Delete(m, arrived);
    assert st.released + Delete(m, arrived) + [] == after;
    ErasesTwice(m, p + d, held + d, after, k, j);
    ArriveKeeps(m, st, d);
    n := k + j;
  }

  /**
   However the text is cut, what the reader sees comes from it by deleting complete
   markers, so it has the same normal form.
   */
  lemma SplitOnlyErases(m: Text, deltas: seq<Text>)
    requires HeadOnce(m)
    ensures exists n: nat :: Erases(m, Concat(deltas), Output(m, deltas), n)
    ensures Norm(m, Output(m, deltas)) == Norm(m, Concat(deltas))
  {
    hide NormFrom;
    assert Erases(m, [], [] + [], 0);
    var n := ArriveAllErases(m, [], Held([], []), deltas, 0);
    assert [] + Concat(deltas) == Concat(deltas);
    ErasesKeepsNorm(m, Concat(deltas), Output(m, deltas), n);
  }

  // ---------------------------------------------------------------------------
  // When no marker re-forms: exactly the one-pass deletion

  /** A marker that is forming at the end of p is forming at the end of x too. */
  predicate PartialsKept(m: Text, p: Text, x: Text) {
    forall k | 0 <= k < |m| && EndsWith(p, m[..k]) :: EndsWith(x, m[..k])
  }

  lemma PartialsGrow(m: Text, p: Text, x: Text, c: Sym)
    requires PartialsKept(m, p, x)
    ensures PartialsKept(m, p + [c], x + [c])
  {
    forall k | 0 <= k < |m| && EndsWith(p + [c], m[..k]) ensures EndsWith(x + [c], m[..k]) {
      if k > 0 {
        SnocEnds(p, c, m, k);
        assert EndsWith(p, m[..k - 1]);
        SnocEnds(x, c, m, k);
      }
    }
  }

  /** A text whose deletion is clean has clean prefixes. */
  lemma PrefixClean(m: Text, s: Text, c: Sym)
    requires HeadOnce(m) && !Occurs(m, Delete(m, s + [c]))
    ensures !Occurs(m, Delete(m, s))
  {
    DeleteSnoc(m, s, c);
    hide Delete;
    var d := Delete(m, s);
    hide Occurs;
    if Occurs(m, d) {
      if EndsWith(s + [c], m) {
        OccursBefore(m, Delete(m, s + [c]));
      } else {
        OccursLonger(m, d, [c]);
      }
    }
  }

  lemma OccursBefore(m: Text, e: Text)
    requires HeadOnce(m) && Occurs(m, e + m[..|m| - 1])
    ensures Occurs(m, e)
  {
    var d := e + m[..|m| - 1];
    var i :| 0 <= i <= |d| && At(m, d, i);
    if |e| < i + |m| {
      AtCovers(m, d, i, |e|);
      assert false;
    }
    assert e[i..i + |m|] == d[i..i + |m|];
    assert At(m, e, i);
  }

  lemma {:induction false} PrefixesClean(m: Text, p: Text, q: Text)
    requires HeadOnce(m) && !Occurs(m, Delete(m, p + q))
    ensures !Occurs(m, Delete(m, p))
    decreases |q|
  {
    hide Delete, Occurs;
    if q == [] {
      assert p + q == p;
    } else {
      var r, c := q[..|q| - 1], q[|q| - 1];
      assert p + q == (p + r) + [c];
      PrefixClean(m, p + r, c);
      PrefixesClean(m, p, r);
    }
  }

  /** Deleting in the tail alone follows deletion in the whole text. */
  lemma {:induction false} TailFollows(m: Text, p: Text, released: Text, x: Text, d: Text)
    requires HeadOnce(m) && !Occurs(m, Delete(m, p + d))
    requires Delete(m, p) == released + Delete(m, x) && PartialsKept(m, p, x)
    ensures Delete(m, p + d) == released + Delete(m, x + d) && PartialsKept(m, p + d, x + d)
    decreases |d|
  {
    hide Delete, Occurs, PartialsKept;
    if d == [] {
      assert p + d == p && x + d == x;
    } else {
      var e, c := d[..|d| - 1], d[|d| - 1];
      assert d == e + [c];
      Regroup(p, e, [c]);
      Regroup(x, e, [c]);
      PrefixClean(m, p + e, c);
      TailFollows(m, p, released, x, e);
      TailFollowsOne(m, p + e, released, x + e, c);
      PartialsGrow(m, p + e, x + e, c);
    }
  }

  lemma TailFollowsOne(m: Text, p: Text, released: Text, x: Text, c: Sym)
    requires HeadOnce(m) && !Occurs(m, Delete(m, p + [c]))
    requires Delete(m, p) == released + Delete(m, x) && PartialsKept(m, p, x)
    ensures Delete(m, p + [c]) == released + Delete(m, x + [c])
  {
    var part := m[..|m| - 1];
    DeleteSnoc(m, p, c);
    DeleteSnoc(m, x, c);
    WholeEnds(m, p, c);
    WholeEnds(m, x, c);
    hide Delete, Occurs;
    if EndsWith(p + [c], m) {
      assert EndsWith(x, part);
      hide EndsWith;
      Regroup(released, Delete(m, x + [c]), part);
      CancelRight(Delete(m, p + [c]), released + Delete(m, x + [c]), part);
    } else if EndsWith(x + [c], m) {
      hide EndsWith;
      EndsInMarker(m, released + Delete(m, x + [c]));
      Regroup(released, Delete(m, x + [c]), part);
      assert false;
    } else {
      Regroup(released, Delete(m, x), [c]);
    }
  }

  lemma WholeEnds(m: Text, s: Text, c: Sym)
    requires m != []
    ensures EndsWith(s + [c], m) <==> EndsWith(s, m[..|m| - 1]) && c == m[|m| - 1]
  {
    assert m[..|m|] == m;
    SnocEnds(s, c, m, |m|);
  }

  lemma CancelRight(a: Text, b: Text, c: Text)
    requires a + c == b + c
    ensures a == b
  {
    assert |a| == |a + c| - |c| == |b|;
    assert a == (a + c)[..|a|] == (b + c)[..|a|] == b;
  }

  lemma EndsInMarker(m: Text, s: Text)
    requires m != []
    ensures Occurs(m, s + m[..|m| - 1] + [m[|m| - 1]])
  {
    var t := s + m[..|m| - 1] + [m[|m| - 1]];
    assert t[|s|..|s| + |m|] == m;
    assert At(m, t, |s|);
  }

  lemma SuffixFree(m: Text, a: Text, b: Text)
    requires !Occurs(m, a + b)
    ensures !Occurs(m, b)
  {
    if Occurs(m, b) {
      var i :| 0 <= i <= |b| && At(m, b, i);
      assert (a + b)[|a| + i..|a| + i + |m|] == b[i..i + |m|];
      assert At(m, a + b, |a| + i);
    }
  }

  /** What the stream holds after reading p. */
  ghost predicate Follows(m: Text, p: Text, st: Held)
    requires m != []
  {
    && Delete(m, p) == st.released + st.tail
    && Delete(m, st.tail) == st.tail
    && PartialsKept(m, p, st.tail)
  }

  lemma ArriveFollows(m: Text, p: Text, st: Held, d: Text)
    requires HeadOnce(m) && !Occurs(m, Delete(m, p + d)) && Follows(m, p, st)
    ensures Follows(m, p + d, Arrive(m, st, d))
  {
    var st' := Arrive(m, st, d);
    TailFollows(m, p, st.released, st.tail, d);
    ArriveKeeps(m, st, d);
    SuffixFree(m, st'.released, st'.tail);
    DeleteNone(m, st'.tail);
    hide Delete, Occurs;
    forall k | 0 <= k < |m| && EndsWith(p + d, m[..k]) ensures EndsWith(st'.tail, m[..k]) {
      DeleteKeepsPartial(m, st.tail + d, k);
      TailHoldsPartial(m, st, d, k);
    }
  }

  lemma TailHoldsPartial(m: Text, st: Held, d: Text, k: nat)
    requires m != [] && k < |m| && EndsWith(Delete(m, st.tail + d), m[..k])
    ensures EndsWith(Arrive(m, st, d).tail, m[..k])
  {
    hide Delete;
    var (safe, tail) := MarkerSafeSplit(m, st.tail + d);
    assert k <= |tail|;
    hide EndsWith;
    SuffixEnds(safe, tail, m[..k]);
  }

  lemma SuffixEnds(a: Text, b: Text, p: Text)
    requires EndsWith(a + b, p) && |p| <= |b|
    ensures EndsWith(b, p)
  {
    assert b[|b| - |p|..] == (a + b)[|a + b| - |p|..];
  }

  lemma {:induction false} ArriveAllFollows(m: Text, p: Text, st: Held, deltas: seq<Text>)
    requires HeadOnce(m) && !Occurs(m, Delete(m, p + Concat(deltas))) && Follows(m, p, st)
    ensures Follows(m, p + Concat(deltas), ArriveAll(m, st, deltas))
    decreases |deltas|
  {
    hide Delete, Occurs, Follows, Arrive;
    if deltas == [] {
      assert p + [] == p;
    } else {
      var d, later := deltas[0], Concat(deltas[1..]);
      Regroup(p, d, later);
      PrefixesClean(m, p + d, later);
      ArriveFollows(m, p, st, d);
      ArriveAllFollows(m, p + d, Arrive(m, st, d), deltas[1..]);
    }
  }

  /** If one pass over the whole text leaves no marker, every cut shows exactly that. */
  lemma CleanDeletionIsStreamed(m: Text, deltas: seq<Text>)
    requires HeadOnce(m) && !Occurs(m, Delete(m, Concat(deltas)))
    ensures Output(m, deltas) == Delete(m, Concat(deltas))
  {
    assert Follows(m, [], Held([], []));
    assert [] + Concat(deltas) == Concat(deltas);
    ArriveAllFollows(m, [], Held([], []), deltas);
  }

  // ---------------------------------------------------------------------------
  // When one re-forms: a cut shows it

  lemma {:induction false} DeleteSplits(m: Text, a: Text, b: Text)
    requires m != [] && forall i | 0 <= i < |a| && At(m, a + b, i) :: i + |m| <= |a|
    ensures Delete(m, a + b) == Delete(m, a) + Delete(m, b)
    decreases |a|
  {
    var ab := a + b;
    if a == [] {
      assert ab == b && Delete(m, []) + Delete(m, b) == Delete(m, b);
    } else if m <= ab {
      assert At(m, ab, 0);
      assert m <= a && ab[|m|..] == a[|m|..] + b;
      LaterAt(m, a, b, |m|);
      DeleteSplits(m, a[|m|..], b);
    } else {
      assert ab[1..] == a[1..] + b;
      NotPrefix(m, a, b);
      LaterAt(m, a, b, 1);
      DeleteSplits(m, a[1..], b);
      DeleteCons(m, a);
      DeleteCons(m, ab);
      hide Delete;
      Regroup([a[0]], Delete(m, a[1..]), Delete(m, b));
    }
  }

  lemma NotPrefix(m: Text, a: Text, b: Text)
    requires !(m <= a + b)
    ensures !(m <= a)
  {
    assert |m| <= |a| ==> (a + b)[..|m|] == a[..|m|];
  }

  lemma LaterAt(m: Text, a: Text, b: Text, n: nat)
    requires m != [] && n <= |a| && forall i | 0 <= i < |a| && At(m, a + b, i) :: i + |m| <= |a|
    ensures forall i | 0 <= i < |a[n..]| && At(m, a[n..] + b, i) :: i + |m| <= |a[n..]|
  {
    forall i | 0 <= i < |a[n..]| && At(m, a[n..] + b, i) ensures i + |m| <= |a[n..]| {
      assert (a + b)[n + i..n + i + |m|] == (a[n..] + b)[i..i + |m|];
      assert At(m, a + b, n + i);
    }
  }

  /** The first character whose arrival makes a marker re-form. */
  lemma {:induction false} FirstDirty(m: Text, s: Text) returns (p: Text, c: Sym, q: Text)
    requires m != [] && Occurs(m, Delete(m, s))
    ensures s == p + [c] + q && !Occurs(m, Delete(m, p)) && Occurs(m, Delete(m, p + [c]))
    decreases |s|
  {
    assert Delete(m, []) == [] && !Occurs(m, []);
    hide Delete, Occurs;
    var r, d := s[..|s| - 1], s[|s| - 1];
    assert s == r + [d];
    if Occurs(m, Delete(m, r)) {
      p, c, q := FirstDirty(m, r);
      Regroup(p + [c], q, [d]);
      q := q + [d];
    } else {
      p, c, q := r, d, [];
      assert r + [d] + [] == s;
    }
  }

  /**
   Where a text that did not contain the marker comes to contain it, by one character
   or by losing a part at its end: it grew, and the marker stands at its end.
   */
  lemma NewOccurrence(m: Text, d: Text, e: Text, part: Text, c: Sym, shrunk: bool)
    requires m != [] && !Occurs(m, d) && Occurs(m, e) && (if shrunk then d == e + part else e == d + [c])
    ensures !shrunk && EndsWith(d + [c], m)
  {
    hide Occurs;
    if shrunk {
      OccursLonger(m, e, part);
      assert false;
    }
    OccursLast(m, d, c);
  }

  lemma OccursLonger(m: Text, e: Text, f: Text)
    requires Occurs(m, e)
    ensures Occurs(m, e + f)
  {
    var i :| 0 <= i <= |e| && At(m, e, i);
    assert (e + f)[i..i + |m|] == e[i..i + |m|];
    assert At(m, e + f, i);
  }

  lemma OccursLast(m: Text, d: Text, c: Sym)
    requires m != [] && Occurs(m, d + [c]) && !Occurs(m, d)
    ensures EndsWith(d + [c], m)
  {
    var i :| 0 <= i <= |d + [c]| && At(m, d + [c], i);
    if i + |m| <= |d| {
      assert d[i..i + |m|] == (d + [c])[i..i + |m|];
      assert At(m, d, i);
    }
  }

  lemma DirtySplits(m: Text, p: Text, c: Sym, q: Text)
    requires HeadOnce(m) && EndsWith(Delete(m, p + [c]), m)
    ensures Delete(m, p + [c] + q) == Delete(m, p + [c]) + Delete(m, q)
  {
    hide Delete, Occurs;
    var a := p + [c];
    forall i | 0 <= i < |a| && At(m, a + q, i) ensures i + |m| <= |a| {
      if i + |m| > |a| {
        var k := |a| - i;
        assert (a + q)[i..i + |m|][..k] == (a + q)[i..i + k];
        assert (a + q)[i..i + k] == a[i..];
        assert EndsWith(a, m[..k]);
        DeleteKeepsPartial(m, a, k);
        PartialIsNotWhole(m, Delete(m, a), k);
        assert false;
      }
    }
    DeleteSplits(m, a, q);
  }

  /** Cutting right before and right after that character loses the marker the whole text keeps. */
  lemma DirtyCut(m: Text, p: Text, c: Sym, q: Text)
    requires HeadOnce(m) && !Occurs(m, Delete(m, p)) && Occurs(m, Delete(m, p + [c]))
    ensures Concat([p, [c], q]) == p + [c] + q
    ensures Output(m, [p, [c], q]) != Delete(m, p + [c] + q)
  {
    hide Delete, Occurs, Arrive;
    var d := Delete(m, p);
    DeleteSnoc(m, p, c);
    NewOccurrence(m, d, Delete(m, p + [c]), m[..|m| - 1], c, EndsWith(p + [c], m));
    DirtySplits(m, p, c, q);
    var st := Arrive(m, Held([], []), p);
    HeldBack(m, p, d);
    EndsBeforeLast(m, d, c);
    DirtySecond(m, st, c);
    var st2 := Arrive(m, st, [c]);
    ThreeDeltas(m, p, [c], q);
    ArriveKeeps(m, st2, q);
    assert st2.tail + q == q;
    assert |Output(m, [p, [c], q])| == |st2.released| + |Delete(m, q)|;
    assert |Delete(m, p + [c] + q)| == |d| + 1 + |Delete(m, q)|;
  }

  /** The first call releases all but a tail of one character less than the marker. */
  lemma HeldBack(m: Text, p: Text, d: Text)
    requires m != [] && Delete(m, p) == d && |d| >= |m| - 1
    ensures Arrive(m, Held([], []), p) == Held(d[..|d| - (|m| - 1)], d[|d| - (|m| - 1)..])
  {
    hide Delete;
    assert [] + p == p;
    var n := |d| - (|m| - 1);
    assert n == 0 ==> d[..n] == [] && d[n..] == d;
    assert [] + d[..n] == d[..n];
  }

  lemma EndsBeforeLast(m: Text, d: Text, c: Sym)
    requires m != [] && EndsWith(d + [c], m)
    ensures |d| >= |m| - 1 && d[|d| - (|m| - 1)..] + [c] == m
  {
    assert (d + [c])[|d| + 1 - |m|..] == d[|d| - (|m| - 1)..] + [c];
  }

  lemma DirtySecond(m: Text, st: Held, c: Sym)
    requires m != [] && st.tail + [c] == m
    ensures Arrive(m, st, [c]) == Held(st.released, [])
  {
    assert m[|m|..] == [];
    assert Delete(m, m) == [];
    assert st.released + [] == st.released;
  }

  lemma ThreeDeltas(m: Text, a: Text, b: Text, c: Text)
    requires m != []
    ensures Concat([a, b, c]) == a + b + c
    ensures var st := Arrive(m, Arrive(m, Arrive(m, Held([], []), a), b), c);
      Output(m, [a, b, c]) == st.released + st.tail
  {
    hide Arrive;
    assert [a, b, c][1..] == [b, c] && [b, c][1..] == [c] && [c][1..] == [];
    assert Concat([c]) == c + [] == c;
    assert Concat([b, c]) == b + c;
    Regroup(a, b, c);
    var st0 := Held([], []);
    var st1 := Arrive(m, st0, a);
    var st2 := Arrive(m, st1, b);
    assert ArriveAll(m, st0, [a, b, c]) == ArriveAll(m, st1, [b, c]);
    assert ArriveAll(m, st1, [b, c]) == ArriveAll(m, st2, [c]);
    assert ArriveAll(m, st2, [c]) == Arrive(m, st2, c);
  }

  /**
   The split refines whole-text deletion on every cut exactly when one pass over
   the whole text leaves no marker.
   */
  lemma SplitRefinesDeletion(m: Text, s: Text)
    requires HeadOnce(m)
    ensures (forall deltas | Concat(deltas) == s :: Output(m, deltas) == Delete(m, s)) <==> !Occurs(m, Delete(m, s))
  {
    hide Delete, Occurs, Output;
    if Occurs(m, Delete(m, s)) {
      var p, c, q := FirstDirty(m, s);
      DirtyCut(m, p, c, q);
    } else {
      forall deltas | Concat(deltas) == s ensures Output(m, deltas) == Delete(m, s) {
        CleanDeletionIsStreamed(m, deltas);
      }
    }
  }

  /** A marker inside a marker: one pass over the text leaves a marker, and one cut shows nothing at all. */
  lemma NestedMarkerNeedsCare(m: Text)
    requires HeadOnce(m) && |m| >= 2
    ensures var a, b := [m[0]] + m, m[1..];
      && Concat([a, b]) == a + b && Concat([a + b]) == a + b
      && Output(m, [a, b]) == [] && Output(m, [a + b]) == m == Delete(m, a + b)
  {
    var a, b := [m[0]] + m, m[1..];
    hide Delete, Arrive, Output, HeadOnce;
    NestedOneCut(m, a, b);
    NestedOnePass(m, a, b);
    OneArrival(m, a + b);
    TwoDeltas(m, a, b);
  }

  lemma NestedOneCut(m: Text, a: Text, b: Text)
    requires HeadOnce(m) && |m| >= 2 && a == [m[0]] + m && b == m[1..]
    ensures Arrive(m, Arrive(m, Held([], []), a), b) == Held([], [])
  {
    var first := m[0];
    DeleteInner(m, []);
    DeleteWhole(m);
    hide Delete, Arrive, HeadOnce;
    assert a + [] == a && [first] + [] == [first] && [] + a == a;
    ShortArrival(m, Held([], []), a);
    assert [first] + b == m;
    ShortArrival(m, Held([], [first]), b);
  }

  lemma ShortArrival(m: Text, st: Held, delta: Text)
    requires m != [] && |Delete(m, st.tail + delta)| < |m|
    ensures Arrive(m, st, delta) == Held(st.released, Delete(m, st.tail + delta))
  {
    hide Delete;
    assert st.released + [] == st.released;
  }

  lemma NestedOnePass(m: Text, a: Text, b: Text)
    requires HeadOnce(m) && |m| >= 2 && a == [m[0]] + m && b == m[1..]
    ensures var st := Arrive(m, Held([], []), a + b); st.released + st.tail == m == Delete(m, a + b)
  {
    DeleteInner(m, b);
    hide Delete, Arrive;
    assert [m[0]] + b == m;
    ArriveKeeps(m, Held([], []), a + b);
    assert [] + (a + b) == a + b && [] + m == m;
  }

  /** A marker that follows the marker's own first character is deleted, and that character stays. */
  lemma DeleteInner(m: Text, t: Text)
    requires HeadOnce(m) && 2 <= |m| && |t| < |m|
    ensures Delete(m, [m[0]] + m + t) == [m[0]] + t
  {
    var first := m[0];
    NotAtOnce(m, t);
    hide Delete, HeadOnce;
    Regroup([first], m, t);
    assert (m + t)[|m|..] == t;
    DeleteHit(m, m + t);
    DeleteShort(m, t);
    DeleteMiss(m, first, m + t);
  }

  lemma NotAtOnce(m: Text, t: Text)
    requires HeadOnce(m) && 2 <= |m|
    ensures !(m <= [m[0]] + (m + t))
  {
    var s := [m[0]] + (m + t);
    assert s[1] == m[0];
    assert m[1] != m[0];
  }

  lemma DeleteMiss(m: Text, c: Sym, t: Text)
    requires m != [] && !(m <= [c] + t)
    ensures Delete(m, [c] + t) == [c] + Delete(m, t)
  {
    assert ([c] + t)[1..] == t;
  }

  lemma DeleteWhole(m: Text)
    requires m != []
    ensures Delete(m, m) == []
  {
    assert m[|m|..] == [];
  }

  lemma TwoDeltas(m: Text, a: Text, b: Text)
    requires m != []
    ensures Concat([a, b]) == a + b
    ensures var st := Arrive(m, Arrive(m, Held([], []), a), b); Output(m, [a, b]) == st.released + st.tail
  {
    hide Arrive;
    assert [a, b][1..] == [b] && [b][1..] == [];
    assert Concat([b]) == b + [] == b;
    var st1 := Arrive(m, Held([], []), a);
    assert ArriveAll(m, Held([], []), [a, b]) == ArriveAll(m, st1, [b]);
    assert ArriveAll(m, st1, [b]) == Arrive(m, st1, b);
  }

  lemma OneArrival(m: Text, a: Text)
    requires m != []
    ensures Concat([a]) == a
    ensures var st := Arrive(m, Held([], []), a); Output(m, [a]) == st.released + st.tail
  {
    hide Arrive;
    assert [a][1..] == [] && Concat([a]) == a + [] == a;
    var st := Arrive(m, Held([], []), a);
    assert ArriveAll(m, Held([], []), [a]) == ArriveAll(m, st, []) == st;
  }
}
