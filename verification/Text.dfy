/**
 Text as the streaming pipeline sees it.

 A text is a sequence of characters. Each is known by the class the
 pipeline's regular expressions and `str` methods put it in, and by
 its code point where the class has several members, so that the
 scanners of the other modules can ask for a digit, a space or an end
 mark as the patterns do. Splitting, trimming and joining are those of
 the `str` methods; the lemmas say what they keep of a text once its
 whitespace and commas are left out.
 */
module Text {
  datatype Sym =
    | Nul
    | Digit(cp: nat)      // \d
    | Space(cp: nat)      // \s, the characters str.split and str.strip act on
    | Comma
    | Dot
    | Stop(cp: nat)       // the other sentence ends: ! ? and the Devanagari and Urdu marks
    | Currency(cp: nat)   // the currency signs a number may carry
    | Letter(cp: nat)     // any other word character
    | Mark(cp: nat)       // anything else

  type Text = seq<Sym>

  const BLANK := Space(32)

  /** \w */
  predicate WordChar(c: Sym) {
    c.Letter? || c.Digit?
  }

  predicate NulFree(s: Text) {
    forall k | 0 <= k < |s| :: s[k] != Nul
  }

  function Concat(parts: seq<Text>): Text {
    if parts == [] then [] else parts[0] + Concat(parts[1..])
  }

  /** The text without whitespace and commas, which speech may drop. */
  function Squeeze(s: Text): Text {
    if s == [] then [] else (if s[0].Space? || s[0].Comma? then [] else [s[0]]) + Squeeze(s[1..])
  }

  function SpanSpace(s: Text): (n: nat)
    ensures n <= |s|
    ensures forall k | 0 <= k < n :: s[k].Space?
    ensures n < |s| ==> !s[n].Space?
  {
    if s != [] && s[0].Space? then 1 + SpanSpace(s[1..]) else 0
  }

  predicate AllSpace(s: Text) {
    forall k | 0 <= k < |s| :: s[k].Space?
  }

  predicate Blank(s: Text) {
    SpanSpace(s) == |s|
  }

  function TrimRight(s: Text): (t: Text)
    ensures t <= s
    ensures t != [] ==> !t[|t| - 1].Space?
    ensures forall k | |t| <= k < |s| :: s[k].Space?
  {
    if s != [] && s[|s| - 1].Space? then TrimRight(s[..|s| - 1]) else s
  }

  /** str.strip() */
  function Strip(s: Text): Text {
    TrimRight(s[SpanSpace(s)..])
  }

  function SpanWord(s: Text): (n: nat)
    ensures n <= |s|
    ensures forall k | 0 <= k < n :: !s[k].Space?
    ensures n < |s| ==> s[n].Space?
  {
    if s != [] && !s[0].Space? then 1 + SpanWord(s[1..]) else 0
  }

  /** str.split() */
  function Words(s: Text): seq<Text>
    decreases |s|
  {
    if s == [] then []
    else if s[0].Space? then Words(s[1..])
    else
      var n := SpanWord(s);
      [s[..n]] + Words(s[n..])
  }

  /** " ".join(words) */
  function Join(words: seq<Text>): Text {
    if words == [] then []
    else if |words| == 1 then words[0]
    else words[0] + [BLANK] + Join(words[1..])
  }

  lemma Regroup(a: Text, b: Text, c: Text)
    ensures (a + b) + c == a + (b + c)
  {
  }

  lemma {:induction false} ConcatConcat(a: seq<Text>, b: seq<Text>)
    ensures Concat(a + b) == Concat(a) + Concat(b)
  {
    if a == [] {
      assert a + b == b;
    } else {
      assert (a + b)[1..] == a[1..] + b;
      ConcatConcat(a[1..], b);
    }
  }

  lemma {:induction false} SqueezeConcat(a: Text, b: Text)
    ensures Squeeze(a + b) == Squeeze(a) + Squeeze(b)
  {
    if a == [] {
      assert a + b == b;
    } else {
      assert (a + b)[1..] == a[1..] + b;
      SqueezeConcat(a[1..], b);
    }
  }

  lemma {:induction false} SqueezeBlank(s: Text)
    requires forall k | 0 <= k < |s| :: s[k].Space?
    ensures Squeeze(s) == []
  {
    if s != [] {
      SqueezeBlank(s[1..]);
    }
  }

  lemma StripKeeps(s: Text)
    ensures Squeeze(Strip(s)) == Squeeze(s)
  {
    var n := SpanSpace(s);
    var t := Strip(s);
    assert s == s[..n] + s[n..];
    SqueezeConcat(s[..n], s[n..]);
    SqueezeBlank(s[..n]);
    assert s[n..] == t + s[n..][|t|..];
    SqueezeConcat(t, s[n..][|t|..]);
    SqueezeBlank(s[n..][|t|..]);
  }

  /** The words of a text, set side by side, are the text without its whitespace. */
  lemma {:induction false} WordsKeep(s: Text)
    ensures Squeeze(Concat(Words(s))) == Squeeze(s)
    decreases |s|
  {
    if s != [] {
      if s[0].Space? {
        WordsKeep(s[1..]);
      } else {
        var n := SpanWord(s);
        WordsKeep(s[n..]);
        SqueezeConcat(s[..n], Concat(Words(s[n..])));
        SqueezeConcat(s[..n], s[n..]);
        assert s == s[..n] + s[n..];
        assert ([s[..n]] + Words(s[n..]))[1..] == Words(s[n..]);
      }
    }
  }

  lemma {:induction false} JoinKeeps(words: seq<Text>)
    ensures Squeeze(Join(words)) == Squeeze(Concat(words))
  {
    hide Squeeze;
    if |words| == 1 {
      assert words[1..] == [];
      assert Concat(words) == words[0] + [] == words[0];
    } else if |words| > 1 {
      var first, rest := words[0], words[1..];
      JoinKeeps(rest);
      SqueezeBlank([BLANK]);
      SqueezeConcat(first, [BLANK]);
      SqueezeConcat(first + [BLANK], Join(rest));
      SqueezeConcat(first, Concat(rest));
    }
  }

  /** Cutting the words anywhere and joining both halves keeps the content. */
  lemma SplitWordsKeep(s: Text, n: nat)
    requires n <= |Words(s)|
    ensures Squeeze(Join(Words(s)[..n])) + Squeeze(Join(Words(s)[n..])) == Squeeze(s)
  {
    hide Squeeze, Words, Join;
    var ws := Words(s);
    WordsKeep(s);
    JoinKeeps(ws[..n]);
    JoinKeeps(ws[n..]);
    ConcatConcat(ws[..n], ws[n..]);
    SqueezeConcat(Concat(ws[..n]), Concat(ws[n..]));
    assert ws == ws[..n] + ws[n..];
  }
}
