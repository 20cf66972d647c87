/**
 Server-sent events between the API and the chat page.

 The server prints one JSON payload per event with `_sse_event`
 (backend/agent_core/api/main.py); the read loop of the chat page
 (frontend/src/api/chatClient.js) puts the events together again from
 reads that may end anywhere. Whether a payload parses is a parameter,
 and a payload that does not is skipped, as the page does. Proved are
 independence of the fragmentation, for any stream, and the round trip
 of every list of events.
 */
module Sse {
  const BLOCK_END := "\n\n"
  const FIELD := "data:"

  /** Characters String.prototype.trim removes. */
  predicate Blank(c: char) {
    var n := c as int;
    9 <= n <= 13 || 0x2000 <= n <= 0x200A || n in {0x20, 0xA0, 0x1680, 0x2028, 0x2029, 0x202F, 0x205F, 0x3000, 0xFEFF}
  }

  function TrimLeft(s: string): string {
    if s != "" && Blank(s[0]) then TrimLeft(s[1..]) else s
  }

  function TrimRight(s: string): string {
    if s != "" && Blank(s[|s| - 1]) then TrimRight(s[..|s| - 1]) else s
  }

  function Trim(s: string): string {
    TrimRight(TrimLeft(s))
  }

  /** _sse_event */
  function SseEvent(payload: string): string {
    "data: " + payload + "\n\n"
  }

  function Stream(payloads: seq<string>): string {
    if payloads == [] then "" else SseEvent(payloads[0]) + Stream(payloads[1..])
  }

  function Concat(pieces: seq<string>): string {
    if pieces == [] then "" else pieces[0] + Concat(pieces[1..])
  }

  // ---------------------------------------------------------------------------
  // The read loop

  /** indexOf("\n\n"), or the length when there is none. */
  function Boundary(s: string): (n: nat)
    ensures n == |s| || n + 2 <= |s|
  {
    if |s| < 2 then |s| else if s[..2] == BLOCK_END then 0 else 1 + Boundary(s[1..])
  }

  function LineLength(s: string): (n: nat)
    ensures n <= |s|
  {
    if s == "" || s[0] == '\n' then 0 else 1 + LineLength(s[1..])
  }

  /** block.split("\n") */
  function Lines(block: string): seq<string>
    decreases |block|
  {
    var n := LineLength(block);
    if n == |block| then [block] else [block[..n]] + Lines(block[n + 1..])
  }

  /** The payload of a line, if it has one that JSON.parse accepts. */
  function Payload(line: string, parses: string -> bool): seq<string> {
    if FIELD <= line && parses(Trim(line[|FIELD|..])) then [Trim(line[|FIELD|..])] else []
  }

  function Payloads(lines: seq<string>, parses: string -> bool): seq<string> {
    if lines == [] then [] else Payloads(lines[..|lines| - 1], parses) + Payload(lines[|lines| - 1], parses)
  }

  /** What is buffered, and what was handed to the page. */
  datatype Client = Client(buffer: string, delivered: seq<string>)

  const NEW_CLIENT := Client("", [])

  /** Takes every complete block out of the buffer. */
  function Drain(c: Client, parses: string -> bool): Client
    decreases |c.buffer|
  {
    var n := Boundary(c.buffer);
    if n == |c.buffer| then c
    else Drain(Client(c.buffer[n + 2..], c.delivered + Payloads(Lines(c.buffer[..n]), parses)), parses)
  }

  function Read(c: Client, chunk: string, parses: string -> bool): Client {
    Drain(c.(buffer := c.buffer + chunk), parses)
  }

  function ReadAll(c: Client, pieces: seq<string>, parses: string -> bool): Client
    decreases |pieces|
  {
    if pieces == [] then c else ReadAll(Read(c, pieces[0], parses), pieces[1..], parses)
  }

  /** The `while (true)` loop of streamChatMessage. */
  method StreamChatMessage(pieces: seq<string>, parses: string -> bool) returns (delivered: seq<string>)
    ensures delivered == ReadAll(NEW_CLIENT, pieces, parses).delivered
  {
    hide Lines, Payload, Boundary;
    var buffer: string := "";
    delivered := [];
    for i := 0 to |pieces|
      invariant ReadAll(Client(buffer, delivered), pieces[i..], parses) == ReadAll(NEW_CLIENT, pieces, parses)
    {
      ghost var before := Client(buffer, delivered);
      assert pieces[i..][1..] == pieces[i + 1..];
      buffer := buffer + pieces[i];
      while Boundary(buffer) != |buffer|
        invariant Drain(Client(buffer, delivered), parses) == Read(before, pieces[i], parses)
        decreases |buffer|
      {
        var boundary := Boundary(buffer);
        var lines := Lines(buffer[..boundary]);
        buffer := buffer[boundary + 2..];
        ghost var start := delivered;
        for k := 0 to |lines|
          invariant delivered == start + Payloads(lines[..k], parses)
        {
          assert lines[..k + 1][..k] == lines[..k];
          delivered := delivered + Payload(lines[k], parses);
        }
        assert lines[..|lines|] == lines;
      }
    }
    assert pieces[|pieces|..] == [];
  }

  // ---------------------------------------------------------------------------
  // Fragmentation

  lemma {:induction false} BoundaryStable(s: string, t: string)
    requires Boundary(s) != |s|
    ensures Boundary(s + t) == Boundary(s)
  {
    if s[..2] == BLOCK_END {
      assert (s + t)[..2] == s[..2];
    } else {
      assert (s + t)[1..] == s[1..] + t && (s + t)[..2] == s[..2];
      BoundaryStable(s[1..], t);
    }
  }

  lemma {:induction false} DrainTwice(c: Client, t: string, parses: string -> bool)
    ensures Drain(c.(buffer := c.buffer + t), parses) == Read(Drain(c, parses), t, parses)
    decreases |c.buffer|
  {
    hide Boundary, Lines, Payloads;
    var n := Boundary(c.buffer);
    if n != |c.buffer| {
      BoundaryStable(c.buffer, t);
      assert (c.buffer + t)[..n] == c.buffer[..n] && (c.buffer + t)[n + 2..] == c.buffer[n + 2..] + t;
      DrainTwice(Client(c.buffer[n + 2..], c.delivered + Payloads(Lines(c.buffer[..n]), parses)), t, parses);
    }
  }

  lemma {:induction false} DrainDrained(c: Client, parses: string -> bool)
    ensures Drain(Drain(c, parses), parses) == Drain(c, parses)
    decreases |c.buffer|
  {
    hide Boundary, Lines, Payloads;
    var n := Boundary(c.buffer);
    if n != |c.buffer| {
      DrainDrained(Client(c.buffer[n + 2..], c.delivered + Payloads(Lines(c.buffer[..n]), parses)), parses);
    }
  }

  /** However a stream is fragmented, what is delivered, and what is left, is as if it were read in one piece. */
  lemma {:induction false} FragmentsDoNotMatter(c: Client, pieces: seq<string>, parses: string -> bool)
    requires Drain(c, parses) == c
    ensures ReadAll(c, pieces, parses) == Read(c, Concat(pieces), parses)
    decreases |pieces|
  {
    hide Drain;
    if pieces == [] {
      assert c.buffer + "" == c.buffer;
    } else {
      var full := c.(buffer := c.buffer + pieces[0]);
      DrainDrained(full, parses);
      FragmentsDoNotMatter(Read(c, pieces[0], parses), pieces[1..], parses);
      DrainTwice(full, Concat(pieces[1..]), parses);
      assert c.buffer + pieces[0] + Concat(pieces[1..]) == c.buffer + (pieces[0] + Concat(pieces[1..]));
    }
  }

  // ---------------------------------------------------------------------------
  // What a stream delivers

  /** String.prototype.trim: only blank characters are taken, and none is left at either end. */
  lemma TrimExactly(s: string) returns (before: string, after: string)
    ensures s == before + Trim(s) + after
    ensures (forall i | 0 <= i < |before| :: Blank(before[i])) && (forall i | 0 <= i < |after| :: Blank(after[i]))
    ensures Trim(s) != "" ==> !Blank(Trim(s)[0]) && !Blank(Trim(s)[|Trim(s)| - 1])
  {
    var t := TrimLeft(s);
    before := TrimLeftTakes(s);
    after := TrimRightTakes(t);
    assert before + (Trim(s) + after) == before + Trim(s) + after;
    if Trim(s) != "" {
      assert Trim(s)[0] == t[0];
    }
  }

  lemma {:induction false} TrimLeftTakes(s: string) returns (before: string)
    ensures s == before + TrimLeft(s) && (forall i | 0 <= i < |before| :: Blank(before[i]))
    ensures TrimLeft(s) != "" ==> !Blank(TrimLeft(s)[0])
  {
    before := "";
    if s != "" && Blank(s[0]) {
      var b := TrimLeftTakes(s[1..]);
      before := [s[0]] + b;
    }
  }

  lemma {:induction false} TrimRightTakes(s: string) returns (after: string)
    ensures s == TrimRight(s) + after && (forall i | 0 <= i < |after| :: Blank(after[i]))
    ensures TrimRight(s) != "" ==> !Blank(TrimRight(s)[|TrimRight(s)| - 1])
  {
    after := "";
    if s != "" && Blank(s[|s| - 1]) {
      var a := TrimRightTakes(s[..|s| - 1]);
      after := a + [s[|s| - 1]];
    }
  }

  /** A block: one line or more, none but perhaps the first of them empty. */
  predicate IsBlock(lines: seq<string>) {
    && lines != [] && (forall i | 0 <= i < |lines| :: '\n' !in lines[i])
    && (forall i | 0 < i < |lines| :: lines[i] != "")
  }

  function Joined(lines: seq<string>): string {
    if lines == [] then "" else if |lines| == 1 then lines[0] else lines[0] + "\n" + Joined(lines[1..])
  }

  /** The blocks, with an empty line after each. */
  function StreamOf(blocks: seq<seq<string>>): string {
    if blocks == [] then "" else Joined(blocks[0]) + "\n\n" + StreamOf(blocks[1..])
  }

  /** What a line says: its trimmed data, if it is a data line and the data parse. */
  function Said(line: string, parses: string -> bool): seq<string> {
    if |line| >= 5 && line[..5] == "data:" && parses(Trim(line[5..])) then [Trim(line[5..])] else []
  }

  function SaidInLines(lines: seq<string>, parses: string -> bool): seq<string> {
    if lines == [] then [] else Said(lines[0], parses) + SaidInLines(lines[1..], parses)
  }

  function SaidIn(blocks: seq<seq<string>>, parses: string -> bool): seq<string> {
    if blocks == [] then [] else SaidInLines(blocks[0], parses) + SaidIn(blocks[1..], parses)
  }

  lemma {:induction false} OneLine(s: string, rest: string)
    requires '\n' !in s && (rest != "" ==> rest[0] == '\n')
    ensures LineLength(s + rest) == |s|
  {
    if s == "" {
      assert s + rest == rest;
    } else {
      assert s[0] in s && (s + rest)[1..] == s[1..] + rest;
      OneLine(s[1..], rest);
    }
  }

  lemma {:induction false} LinesOfJoined(lines: seq<string>)
    requires IsBlock(lines)
    ensures Lines(Joined(lines)) == lines
    decreases |lines|
  {
    var l := lines[0];
    if |lines| == 1 {
      OneLine(l, "");
      assert l + "" == l;
    } else {
      var rest := "\n" + Joined(lines[1..]);
      OneLine(l, rest);
      assert Joined(lines) == l + rest;
      assert (l + rest)[..|l|] == l && (l + rest)[|l| + 1..] == Joined(lines[1..]);
      LinesOfJoined(lines[1..]);
    }
  }

  /** No empty line in it. */
  predicate NoGap(s: string) {
    forall i | 0 <= i < |s| - 1 :: !(s[i] == '\n' && s[i + 1] == '\n')
  }

  /** The text of a block: no empty line in it, and none begun at its end. */
  predicate Solid(s: string) {
    NoGap(s) && (s != "" ==> s[|s| - 1] != '\n')
  }

  lemma GapTail(s: string)
    requires NoGap(s) && s != ""
    ensures NoGap(s[1..])
  {
    forall i | 0 <= i < |s[1..]| - 1
      ensures !(s[1..][i] == '\n' && s[1..][i + 1] == '\n')
    {
      assert !(s[i + 1] == '\n' && s[(i + 1) + 1] == '\n');
    }
  }

  lemma {:induction false} BoundaryAfter(s: string, rest: string)
    requires Solid(s)
    ensures Boundary(s + BLOCK_END + rest) == |s|
    decreases |s|
  {
    var t := s + BLOCK_END + rest;
    if s == "" {
      assert t[..2] == BLOCK_END;
    } else {
      assert t[1..] == s[1..] + BLOCK_END + rest;
      assert t[0] == s[0] && t[..2][0] == t[0] && t[..2][1] == t[1];
      GapTail(s);
      if |s| > 1 {
        assert t[1] == s[1] && !(s[0] == '\n' && s[0 + 1] == '\n');
      }
      BoundaryAfter(s[1..], rest);
    }
  }

  lemma {:induction false} NoBoundary(s: string)
    requires NoGap(s)
    ensures Boundary(s) == |s|
  {
    if |s| >= 2 {
      assert !(s[0] == '\n' && s[0 + 1] == '\n');
      assert s[..2][0] == s[0] && s[..2][1] == s[1];
      GapTail(s);
      NoBoundary(s[1..]);
    }
  }

  lemma {:induction false} JoinedIsSolid(lines: seq<string>)
    requires IsBlock(lines)
    ensures var s := Joined(lines);
      Solid(s) && (s != "" && lines[0] != "" ==> s[0] != '\n') && (lines[0] != "" ==> s != "")
    decreases |lines|
  {
    var l := lines[0];
    assert forall i | 0 <= i < |l| :: l[i] in l;
    if |lines| > 1 {
      JoinedIsSolid(lines[1..]);
      assert lines[1] != "";
      LineBefore(l, Joined(lines[1..]));
    }
  }

  lemma LineBefore(l: string, rest: string)
    requires '\n' !in l && rest != "" && NoGap(rest) && rest[0] != '\n'
    ensures NoGap(l + "\n" + rest)
  {
    var s := l + "\n" + rest;
    forall i | 0 <= i < |s| - 1
      ensures !(s[i] == '\n' && s[i + 1] == '\n')
    {
      if i < |l| {
        assert s[i] == l[i] && l[i] in l;
      } else if i > |l| {
        var k := i - |l| - 1;
        assert s[i] == rest[k] && s[i + 1] == rest[k + 1];
      }
    }
  }

  lemma PayloadIsSaid(line: string, parses: string -> bool)
    ensures Payload(line, parses) == Said(line, parses)
  {
    hide Trim;
  }

  lemma {:induction false} PayloadsSplit(a: seq<string>, b: seq<string>, parses: string -> bool)
    ensures Payloads(a + b, parses) == Payloads(a, parses) + Payloads(b, parses)
    decreases |b|
  {
    hide Payload;
    if b == [] {
      assert a + b == a;
    } else {
      assert (a + b)[..|a + b| - 1] == a + b[..|b| - 1];
      PayloadsSplit(a, b[..|b| - 1], parses);
    }
  }

  lemma {:induction false} PayloadsAreSaid(lines: seq<string>, parses: string -> bool)
    ensures Payloads(lines, parses) == SaidInLines(lines, parses)
  {
    hide Payload, Said;
    if lines != [] {
      var first := [lines[0]];
      assert lines == first + lines[1..] && first[..0] == [];
      PayloadsSplit(first, lines[1..], parses);
      PayloadIsSaid(lines[0], parses);
      PayloadsAreSaid(lines[1..], parses);
    }
  }

  lemma DrainBlock(lines: seq<string>, later: string, delivered: seq<string>, parses: string -> bool)
    requires IsBlock(lines)
    ensures Drain(Client(Joined(lines) + BLOCK_END + later, delivered), parses)
      == Drain(Client(later, delivered + SaidInLines(lines, parses)), parses)
  {
    hide Boundary, Lines, Payloads, IsBlock, Joined, SaidInLines, Drain, Solid;
    var block := Joined(lines);
    JoinedIsSolid(lines);
    BoundaryAfter(block, later);
    LinesOfJoined(lines);
    PayloadsAreSaid(lines, parses);
    var all := block + BLOCK_END + later;
    assert all[..|block|] == block && all[|block| + 2..] == later;
    DrainOne(Client(all, delivered), |block|, parses);
  }

  lemma DrainRest(rest: string, delivered: seq<string>, parses: string -> bool)
    requires NoGap(rest)
    ensures Drain(Client(rest, delivered), parses) == Client(rest, delivered)
  {
    NoBoundary(rest);
    hide Boundary;
  }

  lemma {:induction false} DrainBlocks(blocks: seq<seq<string>>, rest: string, delivered: seq<string>,
                                       parses: string -> bool)
    requires (forall b | b in blocks :: IsBlock(b)) && NoGap(rest)
    ensures Drain(Client(StreamOf(blocks) + rest, delivered), parses)
      == Client(rest, delivered + SaidIn(blocks, parses))
    decreases |blocks|
  {
    hide IsBlock, Joined, SaidInLines, NoGap, Drain;
    if blocks == [] {
      DrainRest(rest, delivered, parses);
      assert "" + rest == rest && delivered + [] == delivered;
    } else {
      var said, later := SaidInLines(blocks[0], parses), StreamOf(blocks[1..]);
      BlockSplits(Joined(blocks[0]), later, rest);
      DrainBlock(blocks[0], later + rest, delivered, parses);
      DrainBlocks(blocks[1..], rest, delivered + said, parses);
      assert delivered + said + SaidIn(blocks[1..], parses) == delivered + (said + SaidIn(blocks[1..], parses));
    }
  }

  lemma BlockSplits(block: string, later: string, rest: string)
    ensures block + "\n\n" + later + rest == block + BLOCK_END + (later + rest)
  {
  }

  lemma DrainOne(c: Client, n: nat, parses: string -> bool)
    requires n + 2 <= |c.buffer| && Boundary(c.buffer) == n
    ensures Drain(c, parses) == Drain(Client(c.buffer[n + 2..], c.delivered + Payloads(Lines(c.buffer[..n]), parses)),
      parses)
  {
    hide Boundary, Lines, Payloads;
  }

  /**
   Whatever blocks of lines a stream is made of, and however it is fragmented: delivered
   is, line by line, the trimmed data of every data line whose data parse, and of no
   other; and what follows the last block is kept.
   */
  lemma BlocksExactly(blocks: seq<seq<string>>, rest: string, pieces: seq<string>, parses: string -> bool)
    requires (forall b | b in blocks :: IsBlock(b)) && NoGap(rest)
    requires Concat(pieces) == StreamOf(blocks) + rest
    ensures ReadAll(NEW_CLIENT, pieces, parses) == Client(rest, SaidIn(blocks, parses))
  {
    DrainedAtFirst(parses);
    FragmentsDoNotMatter(NEW_CLIENT, pieces, parses);
    hide Drain;
    assert "" + Concat(pieces) == Concat(pieces);
    DrainBlocks(blocks, rest, [], parses);
    assert [] + SaidIn(blocks, parses) == SaidIn(blocks, parses);
  }

  lemma {:induction false} LinesOfBlock(s: string)
    requires NoGap(s) && (s != "" ==> s[|s| - 1] != '\n')
    ensures var lines := Lines(s); IsBlock(lines) && Joined(lines) == s && (s != "" && s[0] != '\n' ==> lines[0] != "")
    decreases |s|
  {
    var n := LineLength(s);
    LineLengthMeans(s);
    if n == |s| {
    } else {
      var rest := s[n + 1..];
      assert s == s[..n] + "\n" + rest;
      RestIsSolid(s, n);
      LinesOfBlock(rest);
      var lines := Lines(s);
      assert lines[1..] == Lines(rest);
      assert forall i | 0 < i < |lines| :: lines[i] == Lines(rest)[i - 1];
    }
  }

  lemma {:induction false} LineLengthMeans(s: string)
    ensures var n := LineLength(s); '\n' !in s[..n] && (n < |s| ==> s[n] == '\n')
  {
    if s != "" && s[0] != '\n' {
      LineLengthMeans(s[1..]);
      assert s[..LineLength(s)] == [s[0]] + s[1..][..LineLength(s) - 1];
    }
  }

  lemma RestIsSolid(s: string, n: nat)
    requires n < |s| && Solid(s) && s[n] == '\n'
    ensures var rest := s[n + 1..]; Solid(rest) && rest != "" && rest[0] != '\n'
  {
    var rest := s[n + 1..];
    assert !(s[n] == '\n' && n + 1 < |s| && s[n + 1] == '\n');
    forall i | 0 <= i < |rest| - 1
      ensures !(rest[i] == '\n' && rest[i + 1] == '\n')
    {
      assert !(s[n + 1 + i] == '\n' && s[(n + 1 + i) + 1] == '\n');
    }
  }

  lemma {:induction false} BoundaryMeans(s: string)
    ensures var n := Boundary(s);
      if n == |s| then NoGap(s) else Solid(s[..n]) && s[n..n + 2] == BLOCK_END
  {
    if |s| < 2 {
    } else if s[..2] == BLOCK_END {
      assert s[..0] == "";
    } else {
      var n := Boundary(s[1..]);
      BoundaryMeans(s[1..]);
      assert s[..2][0] == s[0] && s[..2][1] == s[1];
      assert s[..2] == [s[0], s[1]] && BLOCK_END == ['\n', '\n'];
      if n == |s[1..]| {
        ConsNoGap(s[0], s[1..]);
        assert s == [s[0]] + s[1..];
      } else {
        assert s[1..][n..n + 2] == s[n + 1..n + 3];
        ConsSolid(s, n);
      }
    }
  }

  lemma ConsNoGap(c: char, s: string)
    requires NoGap(s) && (c == '\n' && s != "" ==> s[0] != '\n')
    ensures NoGap([c] + s)
  {
    forall i | 0 <= i < |s|
      ensures !(([c] + s)[i] == '\n' && ([c] + s)[i + 1] == '\n')
    {
      if i > 0 {
        assert !(s[i - 1] == '\n' && s[(i - 1) + 1] == '\n');
      }
    }
  }

  lemma ConsSolid(s: string, n: nat)
    requires n + 3 <= |s| && Solid(s[1..][..n]) && s[n + 1..n + 3] == BLOCK_END
    requires !(s[0] == '\n' && s[1] == '\n')
    ensures Solid(s[..n + 1])
  {
    var x := s[1..][..n];
    assert s[..n + 1] == [s[0]] + x;
    assert s[n + 1] == s[n + 1..n + 3][0];
    ConsNoGap(s[0], x);
  }

  /** Every stream is made of blocks and a rest. */
  lemma {:induction false} EveryStreamHasBlocks(s: string) returns (blocks: seq<seq<string>>, rest: string)
    ensures (forall b | b in blocks :: IsBlock(b)) && NoGap(rest) && s == StreamOf(blocks) + rest
    decreases |s|
  {
    hide IsBlock, NoGap, Lines, Boundary, Joined, Solid;
    var n := Boundary(s);
    BoundaryMeans(s);
    if n == |s| {
      blocks, rest := [], s;
      assert "" + s == s;
    } else {
      var later, r := EveryStreamHasBlocks(s[n + 2..]);
      assert Solid(s[..n]);
      SolidMeans(s[..n]);
      LinesOfBlock(s[..n]);
      blocks, rest := [Lines(s[..n])] + later, r;
      assert blocks[1..] == later;
      assert s == s[..n] + s[n..n + 2] + s[n + 2..];
      BlockSplits(s[..n], StreamOf(later), r);
    }
  }

  lemma SolidMeans(s: string)
    requires Solid(s)
    ensures NoGap(s) && (s != "" ==> s[|s| - 1] != '\n')
  {
  }

  /** So for every stream and every fragmentation: delivered is what its lines say, and the rest is kept. */
  lemma DeliveredExactly(pieces: seq<string>, parses: string -> bool)
    returns (blocks: seq<seq<string>>, rest: string)
    ensures (forall b | b in blocks :: IsBlock(b)) && NoGap(rest) && Concat(pieces) == StreamOf(blocks) + rest
    ensures ReadAll(NEW_CLIENT, pieces, parses) == Client(rest, SaidIn(blocks, parses))
  {
    hide IsBlock, NoGap, StreamOf, SaidIn, ReadAll;
    blocks, rest := EveryStreamHasBlocks(Concat(pieces));
    BlocksExactly(blocks, rest, pieces, parses);
  }

  lemma DrainedAtFirst(parses: string -> bool)
    ensures Drain(NEW_CLIENT, parses) == NEW_CLIENT
  {
  }

  // ---------------------------------------------------------------------------
  // Round trip

  /** What json.dumps gives for an object: one line, neither end blank, and JSON.parse takes it. */
  predicate JsonLine(p: string, parses: string -> bool) {
    p != "" && '\n' !in p && !Blank(p[0]) && !Blank(p[|p| - 1]) && parses(p)
  }

  lemma EventSays(p: string, parses: string -> bool)
    requires JsonLine(p, parses)
    ensures '\n' !in "data: " + p && Said("data: " + p, parses) == [p]
    ensures SseEvent(p) == "data: " + p + "\n\n"
  {
    var line := "data: " + p;
    assert line[5..] == " " + p && line[..5] == "data:";
    assert (" " + p)[1..] == p;
    assert Blank(' ');
    assert TrimLeft(" " + p) == TrimLeft(p) == p;
    assert TrimRight(p) == p;
  }

  function EventBlocks(payloads: seq<string>): seq<seq<string>> {
    seq(|payloads|, i requires 0 <= i < |payloads| => ["data: " + payloads[i]])
  }

  lemma {:induction false} EventsSay(payloads: seq<string>, parses: string -> bool)
    requires forall i | 0 <= i < |payloads| :: JsonLine(payloads[i], parses)
    ensures forall b | b in EventBlocks(payloads) :: IsBlock(b)
    ensures Stream(payloads) == StreamOf(EventBlocks(payloads)) && SaidIn(EventBlocks(payloads), parses) == payloads
    decreases |payloads|
  {
    hide SseEvent, Said, JsonLine;
    if payloads != [] {
      EventSays(payloads[0], parses);
      EventsSay(payloads[1..], parses);
      OneBlock("data: " + payloads[0], parses);
      assert EventBlocks(payloads) == [["data: " + payloads[0]]] + EventBlocks(payloads[1..]);
    }
  }

  lemma OneBlock(line: string, parses: string -> bool)
    requires '\n' !in line
    ensures IsBlock([line]) && Joined([line]) == line && SaidInLines([line], parses) == Said(line, parses)
  {
    hide Said;
    assert [line][1..] == [];
  }

  /** For every list of events and every fragmentation of their stream, exactly those events are delivered, in order. */
  lemma RoundTrip(payloads: seq<string>, pieces: seq<string>, parses: string -> bool)
    requires forall i | 0 <= i < |payloads| :: JsonLine(payloads[i], parses)
    requires Concat(pieces) == Stream(payloads)
    ensures ReadAll(NEW_CLIENT, pieces, parses) == Client("", payloads)
  {
    EventsSay(payloads, parses);
    assert StreamOf(EventBlocks(payloads)) + "" == StreamOf(EventBlocks(payloads));
    BlocksExactly(EventBlocks(payloads), "", pieces, parses);
  }
}
