/**
 The in-memory conversation histories of /chat/stream (api/main.py): a dictionary
 ordered by last touch and bounded in size, the locks beside it, and the rule by
 which a turn updates its thread's history, which supervisor/graph.py states a
 second time.
 */
module HistoryCache {
  import opened Options
  import OutputValidation

  const MAX_THREADS: nat := 1000
  const MAX_HISTORY_MESSAGES: nat := 20

  type Key = (string, string)

  datatype Role = User | Assistant

  datatype Message = Message(role: Role, content: string)

  // ---------------------------------------------------------------------------
  // The ordered dictionary

  /** The keys, least recently touched first, and their histories. */
  datatype Cache = Cache(order: seq<Key>, table: map<Key, seq<Message>>)

  const EMPTY := Cache([], map[])

  predicate Distinct(order: seq<Key>) {
    forall i, j | 0 <= i < j < |order| :: order[i] != order[j]
  }

  ghost predicate WellFormed(c: Cache) {
    && Distinct(c.order)
    && (forall k :: k in c.order <==> k in c.table)
    && |c.order| <= MAX_THREADS
  }

  function Without(order: seq<Key>, key: Key): seq<Key> {
    if order == [] then []
    else (if order[0] == key then [] else [order[0]]) + Without(order[1..], key)
  }

  function ToEnd(order: seq<Key>, key: Key): seq<Key> {
    Without(order, key) + [key]
  }

  function AfterGet(c: Cache, key: Key): Cache {
    if key in c.table then c.(order := ToEnd(c.order, key)) else c
  }

  function AfterSet(c: Cache, key: Key, messages: seq<Message>): Cache {
    var order, table := ToEnd(c.order, key), c.table[key := messages];
    if |order| > MAX_THREADS then Cache(order[1..], table - {order[0]}) else Cache(order, table)
  }

  /** The key that a set drops, if it drops one. */
  function EvictedBy(c: Cache, key: Key): Option<Key> {
    var order := ToEnd(c.order, key);
    if |order| > MAX_THREADS then Some(order[0]) else None
  }

  /** The locks after a set: a dropped key loses its lock. */
  function LocksAfterSet(c: Cache, locks: map<Key, nat>, key: Key): map<Key, nat> {
    match EvictedBy(c, key)
    case Some(evicted) => locks - {evicted}
    case None => locks
  }

  /** setdefault: a key without a lock gets a new one, the `made`-th. */
  function LocksWith(locks: map<Key, nat>, made: nat, key: Key): map<Key, nat> {
    if key in locks then locks else locks[key := made]
  }

  lemma DistinctTail(order: seq<Key>)
    requires Distinct(order) && order != []
    ensures Distinct(order[1..]) && order[0] !in order[1..] && order == [order[0]] + order[1..]
  {
    var rest := order[1..];
    forall i, j | 0 <= i < j < |rest| ensures rest[i] != rest[j] {
      assert rest[i] == order[i + 1] && rest[j] == order[j + 1];
    }
  }

  lemma {:induction false} WithoutMembers(order: seq<Key>, key: Key)
    requires Distinct(order)
    ensures Distinct(Without(order, key))
    ensures forall k :: k in Without(order, key) <==> k in order && k != key
    ensures |Without(order, key)| == if key in order then |order| - 1 else |order|
  {
    if order != [] {
      var head, rest := order[0], order[1..];
      DistinctTail(order);
      WithoutMembers(rest, key);
      assert head !in rest;
      assert order == [head] + rest;
    }
  }

  lemma ToEndMembers(order: seq<Key>, key: Key)
    requires Distinct(order)
    ensures Distinct(ToEnd(order, key))
    ensures forall k :: k in ToEnd(order, key) <==> k in order || k == key
    ensures |ToEnd(order, key)| == if key in order then |order| else |order| + 1
  {
    WithoutMembers(order, key);
  }

  lemma AfterSetWellFormed(c: Cache, key: Key, messages: seq<Message>)
    requires WellFormed(c)
    ensures WellFormed(AfterSet(c, key, messages)) && key in AfterSet(c, key, messages).table
  {
    ToEndMembers(c.order, key);
    var order, table := ToEnd(c.order, key), c.table[key := messages];
    assert order[|order| - 1] == key;
    hide ToEnd, Distinct;
    if |order| > MAX_THREADS {
      DropFirst(order, table);
    }
  }

  lemma DropFirst(order: seq<Key>, table: map<Key, seq<Message>>)
    requires |order| > 1 && Distinct(order) && forall k :: k in order <==> k in table
    ensures var rest := order[1..]; var table' := table - {order[0]};
      Distinct(rest) && (forall k :: k in rest <==> k in table') && order[|order| - 1] in table'
  {
    DistinctTail(order);
    hide Distinct;
    assert order[|order| - 1] == order[1..][|order| - 2];
  }

  lemma AfterGetWellFormed(c: Cache, key: Key)
    requires WellFormed(c)
    ensures WellFormed(AfterGet(c, key))
  {
    if key in c.table {
      ToEndMembers(c.order, key);
    }
  }

  class StreamHistory {
    var order: seq<Key>
    var table: map<Key, seq<Message>>
    var locks: map<Key, nat>   // _stream_history_locks, each lock known by when it was made
    var made: nat

    function View(): Cache
      reads this
    {
      Cache(order, table)
    }

    constructor ()
      ensures View() == EMPTY && WellFormed(View()) && locks == map[]
    {
      order, table, locks, made := [], map[], map[], 0;
    }

    /** The lock under which a turn on this key runs. */
    method LockFor(key: Key) returns (lock: nat)
      modifies this`locks, this`made
      ensures locks == LocksWith(old(locks), old(made), key) && lock == locks[key]
      ensures made == if key in old(locks) then old(made) else old(made) + 1
    {
      if key !in locks {
        locks, made := locks[key := made], made + 1;
      }
      lock := locks[key];
    }

    /** _stream_history_get; a miss touches nothing. */
    method Get(key: Key) returns (history: seq<Message>)
      requires WellFormed(View())
      modifies this`order
      ensures View() == AfterGet(old(View()), key) && WellFormed(View())
      ensures history == if key in old(table) then old(table)[key] else []
    {
      AfterGetWellFormed(View(), key);
      history := if key in table then table[key] else [];
      if key in table {
        order := ToEnd(order, key);
      }
    }

    /** _stream_history_set; over the limit, the least recently touched key goes, and its lock. */
    method Set(key: Key, messages: seq<Message>)
      requires WellFormed(View())
      modifies this`order, this`table, this`locks
      ensures View() == AfterSet(old(View()), key, messages) && WellFormed(View())
      ensures locks == LocksAfterSet(old(View()), old(locks), key)
    {
      AfterSetWellFormed(View(), key, messages);
      table := table[key := messages];
      order := ToEnd(order, key);
      if |order| > MAX_THREADS {
        var evicted := order[0];
        order := order[1..];
        table := table - {evicted};
        locks := locks - {evicted};
      }
    }
  }

  // ---------------------------------------------------------------------------
  // Which keys are there

  datatype Op = Get(key: Key) | Set(key: Key, messages: seq<Message>)

  function Apply(c: Cache, op: Op): Cache {
    match op
    case Get(key) => AfterGet(c, key)
    case Set(key, messages) => AfterSet(c, key, messages)
  }

  /** The cache after the first n calls. */
  function CacheAfter(ops: seq<Op>, n: nat): Cache
    requires n <= |ops|
  {
    if n == 0 then EMPTY else Apply(CacheAfter(ops, n - 1), ops[n - 1])
  }

  /** Call n touches its key: a set does, and a get that hits. */
  predicate Touches(ops: seq<Op>, n: nat)
    requires n < |ops|
  {
    ops[n].Set? || ops[n].key in CacheAfter(ops, n).table
  }

  /** The other keys touched since the key was touched last. */
  function TouchedSince(ops: seq<Op>, n: nat, key: Key): set<Key>
    requires n <= |ops|
  {
    if n == 0 || !Touches(ops, n - 1) then if n == 0 then {} else TouchedSince(ops, n - 1, key)
    else if ops[n - 1].key == key then {}
    else TouchedSince(ops, n - 1, key) + {ops[n - 1].key}
  }

  predicate EverSet(ops: seq<Op>, n: nat, key: Key)
    requires n <= |ops|
  {
    exists i | 0 <= i < n :: ops[i].Set? && ops[i].key == key
  }

  /** The keys behind a key in the order. */
  function Behind(order: seq<Key>, key: Key): set<Key> {
    if order == [] then {}
    else if order[0] == key then Members(order[1..])
    else Behind(order[1..], key)
  }

  function Members(order: seq<Key>): set<Key> {
    set k | k in order
  }

  lemma {:induction false} CacheIsWellFormed(ops: seq<Op>, n: nat)
    requires n <= |ops|
    ensures WellFormed(CacheAfter(ops, n))
  {
    if n > 0 {
      CacheIsWellFormed(ops, n - 1);
      hide WellFormed, AfterGet, AfterSet;
      var c := CacheAfter(ops, n - 1);
      match ops[n - 1] {
        case Get(key) => AfterGetWellFormed(c, key);
        case Set(key, messages) => AfterSetWellFormed(c, key, messages);
      }
    }
  }

  lemma {:induction false} BehindMoved(order: seq<Key>, moved: Key, key: Key)
    requires Distinct(order) && key in order && key != moved
    ensures Behind(ToEnd(order, moved), key) == Behind(order, key) + {moved}
  {
    hide Distinct;
    DistinctTail(order);
    var head, rest := order[0], order[1..];
    if head == key {
      BehindHead(order, moved);
    } else {
      BehindMoved(rest, moved, key);
      MovedBehindHead(order, moved);
    }
  }

  lemma BehindHead(order: seq<Key>, moved: Key)
    requires Distinct(order) && order != [] && order[0] != moved
    ensures Behind(ToEnd(order, moved), order[0]) == Members(order[1..]) + {moved}
  {
    DistinctTail(order);
    WithoutMembers(order[1..], moved);
    MovedBehindHead(order, moved);
    assert Members(Without(order[1..], moved) + [moved]) == Members(order[1..]) + {moved};
  }

  lemma MovedBehindHead(order: seq<Key>, moved: Key)
    requires order != []
    ensures ToEnd(order, moved) == (if order[0] == moved then [] else [order[0]]) + ToEnd(order[1..], moved)
    ensures order[0] == moved ==> ToEnd(order, moved) == ToEnd(order[1..], moved)
    ensures order[0] != moved ==> ToEnd(order, moved)[0] == order[0]
    ensures order[0] != moved ==> ToEnd(order, moved)[1..] == ToEnd(order[1..], moved)
  {
  }

  lemma {:induction false} BehindLast(order: seq<Key>, key: Key)
    requires key !in order
    ensures Behind(order + [key], key) == {}
  {
    if order == [] {
      assert ([] + [key])[1..] == [];
    } else {
      assert (order + [key])[1..] == order[1..] + [key];
      BehindLast(order[1..], key);
    }
  }

  /** The first key has all the others behind it. */
  lemma BehindFirst(order: seq<Key>)
    requires Distinct(order) && order != []
    ensures |Behind(order, order[0])| == |order| - 1
    ensures forall k | k in order && k != order[0] :: k in order[1..] && Behind(order[1..], k) == Behind(order, k)
  {
    assert order == [order[0]] + order[1..];
    DistinctTail(order);
    CountMembers(order[1..]);
  }

  lemma {:induction false} CountMembers(order: seq<Key>)
    requires Distinct(order)
    ensures |Members(order)| == |order|
  {
    if order != [] {
      var rest := order[1..];
      DistinctTail(order);
      CountMembers(rest);
      assert order == [order[0]] + rest && order[0] !in rest;
      assert Members(order) == {order[0]} + Members(rest);
    }
  }

  lemma {:induction false} CountBehind(order: seq<Key>, key: Key)
    requires Distinct(order) && key in order
    ensures |Behind(order, key)| < |order|
  {
    var rest := order[1..];
    DistinctTail(order);
    if order[0] == key {
      CountMembers(rest);
    } else {
      assert order == [order[0]] + rest;
      CountBehind(rest, key);
    }
  }

  /** What the cache knows of a key: who was touched since, or that too many were. */
  predicate Tracks(c: Cache, key: Key, everSet: bool, since: set<Key>) {
    if key in c.table then everSet && since == Behind(c.order, key)
    else everSet ==> |since| >= MAX_THREADS
  }

  lemma GetTracks(c: Cache, got: Key, key: Key, everSet: bool, since: set<Key>)
    requires WellFormed(c) && Tracks(c, key, everSet, since) && got in c.table
    ensures Tracks(AfterGet(c, got), key, everSet, if got == key then {} else since + {got})
  {
    if key in c.table {
      if got == key {
        WithoutMembers(c.order, key);
        BehindLast(Without(c.order, key), key);
      } else {
        BehindMoved(c.order, got, key);
      }
    } else if everSet {
      assert since <= since + {got};
      SubsetCount(since, since + {got});
    }
  }

  lemma {:induction false} SubsetCount(a: set<Key>, b: set<Key>)
    requires a <= b
    ensures |a| <= |b|
    decreases a
  {
    if a != {} {
      var k :| k in a;
      SubsetCount(a - {k}, b - {k});
    }
  }

  lemma SetTracks(c: Cache, put: Key, messages: seq<Message>, key: Key, everSet: bool, since: set<Key>)
    requires WellFormed(c) && Tracks(c, key, everSet, since)
    ensures Tracks(AfterSet(c, put, messages), key, everSet || put == key, if put == key then {} else since + {put})
  {
    hide Behind;
    var order := ToEnd(c.order, put);
    ToEndMembers(c.order, put);
    AfterSetWellFormed(c, put, messages);
    if put == key {
      WithoutMembers(c.order, key);
      BehindLast(Without(c.order, key), key);
      BehindFirst(order);
    } else if key in c.table {
      BehindMoved(c.order, put, key);
      BehindFirst(order);
    } else if everSet {
      SubsetCount(since, since + {put});
    }
  }

  lemma {:induction false} CacheTracks(ops: seq<Op>, n: nat, key: Key)
    requires n <= |ops|
    ensures Tracks(CacheAfter(ops, n), key, EverSet(ops, n, key), TouchedSince(ops, n, key))
  {
    if n > 0 {
      CacheTracks(ops, n - 1, key);
      CacheIsWellFormed(ops, n - 1);
      EverSetMore(ops, n - 1, key);
      hide WellFormed, Tracks, AfterSet, EverSet, ToEnd, TouchedSince;
      SinceMore(ops, n - 1, key);
      var c, since := CacheAfter(ops, n - 1), TouchedSince(ops, n - 1, key);
      match ops[n - 1] {
        case Get(got) =>
          if got in c.table {
            GetTracks(c, got, key, EverSet(ops, n - 1, key), since);
          }
        case Set(put, messages) =>
          SetTracks(c, put, messages, key, EverSet(ops, n - 1, key), since);
      }
    }
  }

  lemma SinceMore(ops: seq<Op>, n: nat, key: Key)
    requires n < |ops|
    ensures TouchedSince(ops, n + 1, key)
      == if !Touches(ops, n) then TouchedSince(ops, n, key)
         else if ops[n].key == key then {}
         else TouchedSince(ops, n, key) + {ops[n].key}
  {
  }

  lemma EverSetMore(ops: seq<Op>, n: nat, key: Key)
    requires n < |ops|
    ensures EverSet(ops, n + 1, key) <==> EverSet(ops, n, key) || (ops[n].Set? && ops[n].key == key)
  {
  }

  /**
   A key is in the cache exactly if it was ever set and fewer than 1000 other keys
   were touched since it was touched last.
   */
  lemma PresentExactly(ops: seq<Op>, n: nat, key: Key)
    requires n <= |ops|
    ensures key in CacheAfter(ops, n).table <==> EverSet(ops, n, key) && |TouchedSince(ops, n, key)| < 1000
  {
    hide EverSet;
    CacheTracks(ops, n, key);
    CacheIsWellFormed(ops, n);
    var c := CacheAfter(ops, n);
    if key in c.table {
      CountBehind(c.order, key);
    }
  }

  /** The order is that of the last touches: what stands behind a key was touched after it, and nothing else was. */
  lemma OrderIsRecency(ops: seq<Op>, n: nat, i: nat)
    requires n <= |ops| && i < |CacheAfter(ops, n).order|
    ensures var c := CacheAfter(ops, n);
      |c.order| <= MAX_THREADS && TouchedSince(ops, n, c.order[i]) == Members(c.order[i + 1..])
  {
    hide TouchedSince, EverSet;
    var c := CacheAfter(ops, n);
    CacheIsWellFormed(ops, n);
    CacheTracks(ops, n, c.order[i]);
    BehindAt(c.order, i);
  }

  lemma {:induction false} BehindAt(order: seq<Key>, i: nat)
    requires Distinct(order) && i < |order|
    ensures Behind(order, order[i]) == Members(order[i + 1..])
  {
    if i > 0 {
      var rest := order[1..];
      DistinctTail(order);
      BehindAt(rest, i - 1);
      assert rest[i..] == order[i + 1..];
    }
  }

  // ---------------------------------------------------------------------------
  // The histories

  /** One finished turn that is remembered: the question, the answer, and how many tools backed it. */
  datatype Turn = Turn(question: string, answer: string, toolCalls: nat)

  function Pair(turn: Turn): seq<Message> {
    [Message(User, turn.question),
     Message(Assistant, if turn.toolCalls > 0 then turn.answer + "\n" + OutputValidation.MARKER_TEXT else turn.answer)]
  }

  /** Python's `messages[-20:]`. */
  function LastMessages(messages: seq<Message>): seq<Message> {
    if |messages| <= MAX_HISTORY_MESSAGES then messages else messages[|messages| - MAX_HISTORY_MESSAGES..]
  }

  /** The history a remembered turn leaves, as chat_stream stores it. */
  function Updated(history: seq<Message>, turn: Turn): seq<Message> {
    LastMessages(history + Pair(turn))
  }

  /** task_agent_node: the history after a turn, remembered or failed. */
  function GraphHistory(history: seq<Message>, turn: Turn, error: bool): seq<Message> {
    LastMessages(if error then history else history + Pair(turn))
  }

  function Messages(turns: seq<Turn>): seq<Message> {
    if turns == [] then [] else Messages(turns[..|turns| - 1]) + Pair(turns[|turns| - 1])
  }

  lemma {:induction false} MessagesFrom(turns: seq<Turn>, n: nat)
    requires n <= |turns|
    ensures |Messages(turns)| == 2 * |turns| && Messages(turns)[2 * n..] == Messages(turns[n..])
    decreases |turns|
  {
    if turns == [] {
    } else if n == |turns| {
      MessagesFrom(turns[..n - 1], 0);
      assert turns[n..] == [];
    } else {
      var front, last := turns[..|turns| - 1], turns[|turns| - 1];
      MessagesFrom(front, n);
      assert turns[n..][..|turns[n..]| - 1] == front[n..];
      assert (Messages(front) + Pair(last))[2 * n..] == Messages(front)[2 * n..] + Pair(last);
    }
  }

  /**
   What a history says of turn i: its question as the user's message, then its answer as
   the assistant's, with the marker on a line of its own exactly if tools backed it.
   */
  lemma {:induction false} MessagesExactly(turns: seq<Turn>, i: nat)
    requires i < |turns|
    ensures var all, turn := Messages(turns), turns[i];
      && |all| == 2 * |turns|
      && all[2 * i] == Message(User, turn.question)
      && (turn.toolCalls == 0 ==> all[2 * i + 1] == Message(Assistant, turn.answer))
      && (turn.toolCalls > 0 ==> all[2 * i + 1] == Message(Assistant,
            turn.answer + "\n" + ("[" + "This reply was verified" + " via search_company_knowledge.]")))
    decreases |turns|
  {
    MessagesFrom(turns, 0);
    var front := turns[..|turns| - 1];
    MessagesFrom(front, 0);
    if i < |front| {
      MessagesExactly(front, i);
    }
  }

  /** The last 20 messages are the last ten turns, in whole pairs. */
  lemma LastAreWholePairs(turns: seq<Turn>)
    ensures LastMessages(Messages(turns)) == Messages(if |turns| <= 10 then turns else turns[|turns| - 10..])
  {
    MessagesFrom(turns, if |turns| <= 10 then 0 else |turns| - 10);
  }

  /** Updating the cut history is cutting the updated one. */
  lemma UpdatedIsLast(turns: seq<Turn>, turn: Turn)
    ensures Updated(LastMessages(Messages(turns)), turn) == LastMessages(Messages(turns + [turn]))
  {
    assert (turns + [turn])[..|turns|] == turns;
    assert Messages(turns + [turn]) == Messages(turns) + Pair(turn);
    hide Messages, Pair;
    LastOfLast(Messages(turns), Pair(turn));
  }

  lemma LastOfLast(a: seq<Message>, b: seq<Message>)
    ensures LastMessages(LastMessages(a) + b) == LastMessages(a + b)
  {
    if |a| > MAX_HISTORY_MESSAGES {
      DropTwice(a, b, |a| - MAX_HISTORY_MESSAGES, |b|);
    }
  }

  lemma DropTwice(a: seq<Message>, b: seq<Message>, cut: nat, more: nat)
    requires cut <= |a| && more <= |a| - cut + |b|
    ensures (a[cut..] + b)[more..] == (a + b)[cut + more..]
  {
    assert a + b == a[..cut] + (a[cut..] + b);
  }

  /** The history the graph has accumulated over these turns, some of them failed. */
  function GraphAfter(turns: seq<(Turn, bool)>): seq<Message> {
    if turns == [] then []
    else var (turn, error) := turns[|turns| - 1]; GraphHistory(GraphAfter(turns[..|turns| - 1]), turn, error)
  }

  function Succeeded(turns: seq<(Turn, bool)>): seq<Turn> {
    if turns == [] then []
    else var (turn, error) := turns[|turns| - 1]; Succeeded(turns[..|turns| - 1]) + if error then [] else [turn]
  }

  /** The graph's rule gives the same history for the same turns. */
  lemma {:induction false} GraphAgrees(turns: seq<(Turn, bool)>)
    ensures GraphAfter(turns) == LastMessages(Messages(Succeeded(turns)))
    decreases |turns|
  {
    if turns == [] {
      assert LastMessages(Messages([])) == [];
    } else {
      var front := turns[..|turns| - 1];
      var (turn, error) := turns[|turns| - 1];
      GraphAgrees(front);
      UpdatedIsLast(Succeeded(front), turn);
      hide Messages;
      assert Succeeded(front) + [] == Succeeded(front);
    }
  }
}
