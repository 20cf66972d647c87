/**
 Turns on the conversation threads of /chat/stream (api/main.py), any number at once. A
 turn runs under the lock of its key; but a key that is evicted from the cache loses its
 lock, also while turns still hold or await it. Proved is that the turns of a key run one
 at a time exactly as long as that does not happen, and what history each of them then
 works with.
 */
module ThreadTurns {
  import opened Options
  import opened HistoryCache

  /** Where a turn is: it awaits its lock, or runs with the history it has read, or is over. */
  datatype State = Awaiting | Running(history: seq<Message>) | Ended

  datatype Task = Task(key: Key, lock: nat, state: State)

  /** The cache, the locks, all turns in the order they came, and the turns of each key since it was last absent. */
  datatype Server = Server(
    cache: Cache,
    locks: map<Key, nat>,
    made: nat,                         // how many locks were made
    tasks: seq<Task>,
    remembered: map<Key, seq<Turn>>)

  const STARTED := Server(EMPTY, map[], 0, [], map[])

  datatype Event =
    | Arrive(key: Key)                 // a turn looks its lock up, and waits for it
    | Acquire(i: nat)                  // it gets the lock, and reads the history
    | Remember(i: nat, turn: Turn)     // it stores the history and releases the lock
    | Leave(i: nat)                    // it fails, or is cancelled, waiting or running
    | Clarify(key: Key)                // low confidence: neither reads nor stores

  /** A lock is given in the order of arrival, when nobody holds it. */
  predicate Enabled(s: Server, e: Event) {
    match e
    case Arrive(_) => true
    case Acquire(i) =>
      && i < |s.tasks| && s.tasks[i].state.Awaiting?
      && (forall j | 0 <= j < i && s.tasks[j].lock == s.tasks[i].lock :: s.tasks[j].state.Ended?)
    case Remember(i, _) => i < |s.tasks| && s.tasks[i].state.Running?
    case Leave(i) => i < |s.tasks| && !s.tasks[i].state.Ended?
    case Clarify(_) => true
  }

  function TurnsOf(s: Server, key: Key): seq<Turn> {
    if key in s.remembered then s.remembered[key] else []
  }

  function Read(c: Cache, key: Key): seq<Message> {
    if key in c.table then c.table[key] else []
  }

  function Enter(s: Server, i: nat, state: State): seq<Task>
    requires i < |s.tasks|
  {
    s.tasks[i := s.tasks[i].(state := state)]
  }

  function Step(s: Server, e: Event): Server
    requires Enabled(s, e)
  {
    match e
    case Arrive(key) =>
      var locks := LocksWith(s.locks, s.made, key);
      s.(locks := locks, made := if key in s.locks then s.made else s.made + 1,
         tasks := s.tasks + [Task(key, locks[key], Awaiting)])
    case Acquire(i) =>
      var key := s.tasks[i].key;
      s.(cache := AfterGet(s.cache, key), tasks := Enter(s, i, Running(Read(s.cache, key))),
         remembered := if key in s.cache.table then s.remembered else s.remembered[key := []])
    case Remember(i, turn) =>
      var key := s.tasks[i].key;
      s.(cache := AfterSet(s.cache, key, Updated(s.tasks[i].state.history, turn)),
         locks := LocksAfterSet(s.cache, s.locks, key), tasks := Enter(s, i, Ended),
         remembered := s.remembered[key := TurnsOf(s, key) + [turn]])
    case Leave(i) => s.(tasks := Enter(s, i, Ended))
    case Clarify(_) => s
  }

  predicate Runs(s: Server, events: seq<Event>)
    decreases |events|
  {
    events == [] || (Enabled(s, events[0]) && Runs(Step(s, events[0]), events[1..]))
  }

  function After(s: Server, events: seq<Event>): Server
    requires Runs(s, events)
    decreases |events|
  {
    if events == [] then s else After(Step(s, events[0]), events[1..])
  }

  // ---------------------------------------------------------------------------
  // One at a time

  /** A turn of the key holds or awaits a lock. */
  predicate InUse(s: Server, key: Key) {
    exists i | 0 <= i < |s.tasks| :: s.tasks[i].key == key && !s.tasks[i].state.Ended?
  }

  /** The event evicts the key while one of its turns holds or awaits a lock. */
  predicate EvictsInUse(s: Server, e: Event, key: Key)
    requires Enabled(s, e)
  {
    e.Remember? && EvictedBy(s.cache, s.tasks[e.i].key) == Some(key) && InUse(s, key)
  }

  predicate NeverEvictedInUse(s: Server, events: seq<Event>, key: Key)
    requires Runs(s, events)
    decreases |events|
  {
    events == [] || (!EvictsInUse(s, events[0], key) && NeverEvictedInUse(Step(s, events[0]), events[1..], key))
  }

  /** Two turns of the key run at once. */
  predicate Overlap(s: Server, key: Key) {
    exists i, j | 0 <= i < j < |s.tasks| ::
      s.tasks[i].key == key && s.tasks[j].key == key && s.tasks[i].state.Running? && s.tasks[j].state.Running?
  }

  /** A lock belongs to one key; who runs under it has only finished turns before him. */
  ghost predicate WellLocked(s: Server) {
    && WellFormed(s.cache)
    && (forall k | k in s.locks :: s.locks[k] < s.made)
    && (forall i | 0 <= i < |s.tasks| :: s.tasks[i].lock < s.made)
    && (forall k, l | k in s.locks && l in s.locks && s.locks[k] == s.locks[l] :: k == l)
    && (forall i, k | 0 <= i < |s.tasks| && k in s.locks && s.locks[k] == s.tasks[i].lock :: k == s.tasks[i].key)
    && (forall i, j | 0 <= i < j < |s.tasks| && s.tasks[i].lock == s.tasks[j].lock ::
          s.tasks[i].key == s.tasks[j].key && (s.tasks[j].state.Running? ==> s.tasks[i].state.Ended?))
  }

  /** All turns of the key that are not over have the lock that is in the dictionary. */
  predicate Guarded(s: Server, key: Key) {
    forall i | 0 <= i < |s.tasks| && s.tasks[i].key == key && !s.tasks[i].state.Ended? ::
      key in s.locks && s.locks[key] == s.tasks[i].lock
  }

  lemma GuardedIsSerial(s: Server, key: Key)
    requires WellLocked(s) && Guarded(s, key)
    ensures !Overlap(s, key)
  {
    hide WellFormed;
  }

  lemma StartedIsLocked(key: Key)
    ensures WellLocked(STARTED) && Guarded(STARTED, key) && FaithfulTo(STARTED, key)
  {
  }

  lemma ArriveKeepsLocked(s: Server, key: Key)
    requires WellLocked(s)
    ensures WellLocked(Step(s, Arrive(key)))
  {
    hide WellFormed;
  }

  lemma EnterKeepsLocked(s: Server, i: nat, state: State, cache: Cache, locks: map<Key, nat>, s': Server)
    requires WellLocked(s) && i < |s.tasks| && !s.tasks[i].state.Ended? && !state.Awaiting?
    requires state.Running? ==> forall j | 0 <= j < i && s.tasks[j].lock == s.tasks[i].lock :: s.tasks[j].state.Ended?
    requires WellFormed(s'.cache) && s'.made == s.made && s'.tasks == Enter(s, i, state)
    requires forall k | k in s'.locks :: k in s.locks && s'.locks[k] == s.locks[k]
    ensures WellLocked(s')
  {
    hide WellFormed;
  }

  lemma StepKeepsLocked(s: Server, e: Event)
    requires WellLocked(s) && Enabled(s, e)
    ensures WellLocked(Step(s, e))
  {
    hide WellFormed, ToEnd, AfterSet, AfterGet, Updated;
    var s' := Step(s, e);
    match e {
      case Arrive(key) => ArriveKeepsLocked(s, key);
      case Acquire(i) =>
        AfterGetWellFormed(s.cache, s.tasks[i].key);
        EnterKeepsLocked(s, i, s'.tasks[i].state, s'.cache, s'.locks, s');
      case Remember(i, turn) =>
        AfterSetWellFormed(s.cache, s.tasks[i].key, Updated(s.tasks[i].state.history, turn));
        EnterKeepsLocked(s, i, Ended, s'.cache, s'.locks, s');
      case Leave(i) => EnterKeepsLocked(s, i, Ended, s'.cache, s'.locks, s');
      case Clarify(_) =>
    }
  }

  lemma StepKeepsGuarded(s: Server, e: Event, key: Key)
    requires WellLocked(s) && Guarded(s, key) && Enabled(s, e) && !EvictsInUse(s, e, key)
    ensures Guarded(Step(s, e), key)
  {
    hide WellFormed, ToEnd, AfterSet, AfterGet, Updated, WellLocked;
    var s' := Step(s, e);
    forall i | 0 <= i < |s'.tasks| && s'.tasks[i].key == key && !s'.tasks[i].state.Ended?
      ensures key in s'.locks && s'.locks[key] == s'.tasks[i].lock
    {
      if i < |s.tasks| {
        assert s.tasks[i].key == key && !s.tasks[i].state.Ended?;
        assert InUse(s, key);
      }
    }
  }

  lemma {:induction false} RunKeepsGuarded(s: Server, events: seq<Event>, key: Key)
    requires WellLocked(s) && Guarded(s, key) && Runs(s, events) && NeverEvictedInUse(s, events, key)
    ensures WellLocked(After(s, events)) && Guarded(After(s, events), key)
    decreases |events|
  {
    hide WellLocked, Guarded, EvictsInUse, Step, Enabled;
    if events != [] {
      StepKeepsLocked(s, events[0]);
      StepKeepsGuarded(s, events[0], key);
      RunKeepsGuarded(Step(s, events[0]), events[1..], key);
    }
  }

  /**
   In every run that does not evict the key while one of its turns holds or awaits a
   lock, its turns run one at a time.
   */
  lemma TurnsAreSerialised(events: seq<Event>, key: Key)
    requires Runs(STARTED, events) && NeverEvictedInUse(STARTED, events, key)
    ensures !Overlap(After(STARTED, events), key)
  {
    StartedIsLocked(key);
    RunKeepsGuarded(STARTED, events, key);
    GuardedIsSerial(After(STARTED, events), key);
  }

  // ---------------------------------------------------------------------------
  // And no longer

  /** A set never drops its own key. */
  lemma EvictsAnother(c: Cache, key: Key)
    requires WellFormed(c)
    ensures EvictedBy(c, key) != Some(key)
  {
    ToEndMembers(c.order, key);
    var order := ToEnd(c.order, key);
    assert order[|order| - 1] == key;
    hide ToEnd;
    if |order| > MAX_THREADS {
      assert order[0] != order[|order| - 1];
    }
  }

  /** The first turn under this lock that is not over. */
  lemma {:induction false} FirstUnder(s: Server, lock: nat, n: nat) returns (f: nat)
    requires n < |s.tasks| && s.tasks[n].lock == lock && !s.tasks[n].state.Ended?
    ensures f <= n && s.tasks[f].lock == lock && !s.tasks[f].state.Ended?
    ensures forall j | 0 <= j < f && s.tasks[j].lock == lock :: s.tasks[j].state.Ended?
    decreases n
  {
    if j: nat :| j < n && s.tasks[j].lock == lock && !s.tasks[j].state.Ended? {
      f := FirstUnder(s, lock, j);
    } else {
      f := n;
    }
  }

  lemma OneEvent(s: Server, e: Event, more: seq<Event>, key: Key)
    requires Enabled(s, e) && !EvictsInUse(s, e, key) && Runs(Step(s, e), more)
      && NeverEvictedInUse(Step(s, e), more, key)
    ensures Runs(s, [e] + more) && NeverEvictedInUse(s, [e] + more, key)
    ensures After(s, [e] + more) == After(Step(s, e), more)
  {
    assert ([e] + more)[1..] == more;
  }

  lemma NoEvents(s: Server, key: Key)
    ensures Runs(s, []) && NeverEvictedInUse(s, [], key) && After(s, []) == s
  {
  }

  /** A key that has lost its lock gives the next turn a new one, which then runs beside the one that runs already. */
  lemma SecondTurnRuns(s: Server, key: Key, f: nat) returns (more: seq<Event>)
    requires WellLocked(s) && key !in s.locks && f < |s.tasks| && s.tasks[f].key == key && s.tasks[f].state.Running?
    ensures Runs(s, more) && NeverEvictedInUse(s, more, key) && Overlap(After(s, more), key)
  {
    hide WellFormed, AfterGet;
    var n := |s.tasks|;
    var s1 := Step(s, Arrive(key));
    assert s1.tasks[n] == Task(key, s.made, Awaiting) && forall j | 0 <= j < n :: s1.tasks[j] == s.tasks[j];
    var s2 := Step(s1, Acquire(n));
    assert s2.tasks[f] == s.tasks[f] && s2.tasks[n].state.Running? && s2.tasks[n].key == key;
    assert Overlap(s2, key);
    hide WellLocked, Step, Enabled, Overlap;
    NoEvents(s2, key);
    OneEvent(s1, Acquire(n), [], key);
    OneEvent(s, Arrive(key), [Acquire(n)] + [], key);
    more := [Arrive(key)] + ([Acquire(n)] + []);
  }

  lemma LostLockOverlaps(s: Server, key: Key) returns (more: seq<Event>)
    requires WellLocked(s) && key !in s.locks && InUse(s, key)
    ensures Runs(s, more) && NeverEvictedInUse(s, more, key) && Overlap(After(s, more), key)
  {
    var i :| 0 <= i < |s.tasks| && s.tasks[i].key == key && !s.tasks[i].state.Ended?;
    var f := FirstUnder(s, s.tasks[i].lock, i);
    assert s.tasks[f].key == key;
    if s.tasks[f].state.Running? {
      more := SecondTurnRuns(s, key, f);
    } else {
      var s1 := Step(s, Acquire(f));
      StepKeepsLocked(s, Acquire(f));
      hide WellLocked;
      var rest := SecondTurnRuns(s1, key, f);
      OneEvent(s, Acquire(f), rest, key);
      more := [Acquire(f)] + rest;
    }
  }

  /**
   Serialisation is lost exactly by evicting a key that is in use: while all its turns
   have the lock in the dictionary, an event does that if and only if two turns of the
   key can run at once later, with no further such eviction.
   */
  lemma SerialisedExactly(s: Server, e: Event, key: Key)
    requires WellLocked(s) && Guarded(s, key) && Enabled(s, e)
    ensures EvictsInUse(s, e, key) <==>
      exists more ::
        && Runs(Step(s, e), more) && NeverEvictedInUse(Step(s, e), more, key)
        && Overlap(After(Step(s, e), more), key)
  {
    var s' := Step(s, e);
    StepKeepsLocked(s, e);
    hide WellLocked, WellFormed;
    if EvictsInUse(s, e, key) {
      EvictionLeavesInUse(s, e, key);
      var more := LostLockOverlaps(s', key);
    } else {
      StepKeepsGuarded(s, e, key);
      hide Guarded, Overlap, EvictsInUse, Step;
      forall more | Runs(s', more) && NeverEvictedInUse(s', more, key) ensures !Overlap(After(s', more), key) {
        RunKeepsGuarded(s', more, key);
        GuardedIsSerial(After(s', more), key);
      }
    }
  }

  lemma EvictionLeavesInUse(s: Server, e: Event, key: Key)
    requires WellLocked(s) && Enabled(s, e) && EvictsInUse(s, e, key)
    ensures key !in Step(s, e).locks && InUse(Step(s, e), key)
  {
    hide AfterSet, Updated;
    EvictsAnother(s.cache, s.tasks[e.i].key);
    hide WellFormed, ToEnd, EvictedBy;
    var i :| 0 <= i < |s.tasks| && s.tasks[i].key == key && !s.tasks[i].state.Ended?;
    assert i != e.i && Step(s, e).tasks[i] == s.tasks[i];
  }

  // ---------------------------------------------------------------------------
  // The histories

  /** The key's history, in the cache or in use, is the last 20 messages of its turns since it was last absent. */
  predicate FaithfulTo(s: Server, key: Key) {
    var last := LastMessages(Messages(TurnsOf(s, key)));
    && (key in s.cache.table ==> s.cache.table[key] == last)
    && (forall i | 0 <= i < |s.tasks| && s.tasks[i].key == key && s.tasks[i].state.Running? ::
          s.tasks[i].state.history == last)
  }

  lemma StepKeepsFaithful(s: Server, e: Event, key: Key)
    requires WellLocked(s) && Guarded(s, key) && FaithfulTo(s, key) && Enabled(s, e)
    ensures FaithfulTo(Step(s, e), key)
  {
    hide Messages, LastMessages, Updated, WellFormed;
    match e {
      case Arrive(_) =>
      case Acquire(i) => AcquireKeepsFaithful(s, i, key);
      case Remember(i, turn) => RememberKeepsFaithful(s, i, turn, key);
      case Leave(_) =>
      case Clarify(_) =>
    }
  }

  lemma AcquireKeepsFaithful(s: Server, i: nat, key: Key)
    requires WellLocked(s) && Guarded(s, key) && FaithfulTo(s, key) && Enabled(s, Acquire(i))
    ensures FaithfulTo(Step(s, Acquire(i)), key)
  {
    assert LastMessages(Messages([])) == [];
    hide Messages, LastMessages, Updated, WellFormed, ToEnd;
  }

  lemma RememberKeepsFaithful(s: Server, i: nat, turn: Turn, key: Key)
    requires WellLocked(s) && Guarded(s, key) && FaithfulTo(s, key) && Enabled(s, Remember(i, turn))
    ensures FaithfulTo(Step(s, Remember(i, turn)), key)
  {
    hide Messages, LastMessages, Updated, AfterSet, WellLocked, Guarded, LocksAfterSet;
    var own, last := s.tasks[i].key, Updated(s.tasks[i].state.history, turn);
    UpdatedIsLast(TurnsOf(s, own), turn);
    GuardedIsSerial(s, key);
    if key in AfterSet(s.cache, own, last).table {
      SetKeepsOthers(s.cache, own, last, key);
    }
  }

  lemma SetKeepsOthers(c: Cache, key: Key, messages: seq<Message>, k: Key)
    requires k in AfterSet(c, key, messages).table
    ensures k == key || k in c.table
    ensures AfterSet(c, key, messages).table[k] == if k == key then messages else c.table[k]
  {
  }

  lemma {:induction false} RunIsFaithful(s: Server, events: seq<Event>, key: Key)
    requires WellLocked(s) && Guarded(s, key) && FaithfulTo(s, key) && Runs(s, events)
      && NeverEvictedInUse(s, events, key)
    ensures WellLocked(After(s, events)) && Guarded(After(s, events), key) && FaithfulTo(After(s, events), key)
    decreases |events|
  {
    hide WellLocked, Guarded, FaithfulTo, EvictsInUse, Step, Enabled;
    if events != [] {
      StepKeepsLocked(s, events[0]);
      StepKeepsGuarded(s, events[0], key);
      StepKeepsFaithful(s, events[0], key);
      RunIsFaithful(Step(s, events[0]), events[1..], key);
    }
  }

  /**
   In every run that does not evict the key while one of its turns holds or awaits a
   lock, a turn that gets the lock works with the last ten remembered turns of its
   thread since the thread was last absent, in whole pairs; none of them failed or
   asked for clarification.
   */
  lemma TurnSeesItsThread(events: seq<Event>, key: Key, i: nat)
    requires Runs(STARTED, events) && NeverEvictedInUse(STARTED, events, key)
    requires var s := After(STARTED, events); Enabled(s, Acquire(i)) && s.tasks[i].key == key
    ensures var s := After(STARTED, events); var s' := Step(s, Acquire(i)); var turns := TurnsOf(s', key);
      && s'.tasks[i].state == Running(Messages(if |turns| <= 10 then turns else turns[|turns| - 10..]))
      && (key in s.cache.table ==> turns == TurnsOf(s, key)) && (key !in s.cache.table ==> turns == [])
  {
    StartedIsLocked(key);
    hide Messages, LastMessages, Runs, After, STARTED, AfterGet, WellLocked, Guarded, FaithfulTo, NeverEvictedInUse;
    RunIsFaithful(STARTED, events, key);
    var s := After(STARTED, events);
    StepKeepsFaithful(s, Acquire(i), key);
    RunsFaithfully(Step(s, Acquire(i)), key, i);
    LastAreWholePairs(TurnsOf(Step(s, Acquire(i)), key));
    AcquireRuns(s, i);
  }

  lemma RunsFaithfully(s: Server, key: Key, i: nat)
    requires FaithfulTo(s, key) && i < |s.tasks| && s.tasks[i].key == key && s.tasks[i].state.Running?
    ensures s.tasks[i].state.history == LastMessages(Messages(TurnsOf(s, key)))
  {
  }

  lemma AcquireRuns(s: Server, i: nat)
    requires Enabled(s, Acquire(i))
    ensures var s' := Step(s, Acquire(i)); var key := s.tasks[i].key;
      && |s'.tasks| == |s.tasks| && s'.tasks[i].key == key && s'.tasks[i].state.Running?
      && (key in s.cache.table ==> TurnsOf(s', key) == TurnsOf(s, key))
      && (key !in s.cache.table ==> TurnsOf(s', key) == [])
  {
  }

  // ---------------------------------------------------------------------------
  // A run in which the lock is lost

  const THREAD: Key := ("user", "thread")
  const ANY_TURN := Turn("question", "answer", 0)

  /** Another user's thread, one for every number. */
  function Other(n: nat): Key {
    ("other", seq(n, _ => 'a'))
  }

  function Others(n: nat): seq<Key> {
    seq(n, i requires 0 <= i < n => Other(i))
  }

  lemma OthersDiffer(m: nat, n: nat)
    requires Other(m) == Other(n)
    ensures m == n
  {
    assert |Other(m).1| == m && |Other(n).1| == n;
  }

  lemma OtherIsNew(n: nat)
    ensures Other(n) !in [THREAD] + Others(n)
  {
    forall i | 0 <= i < n ensures Others(n)[i] != Other(n) {
      if Others(n)[i] == Other(n) {
        OthersDiffer(i, n);
      }
    }
  }

  lemma {:induction false} WithoutNew(order: seq<Key>, key: Key)
    requires key !in order
    ensures Without(order, key) == order
  {
    if order != [] {
      WithoutNew(order[1..], key);
    }
  }

  lemma {:induction false} RunOn(s: Server, a: seq<Event>, b: seq<Event>)
    requires Runs(s, a) && Runs(After(s, a), b)
    ensures Runs(s, a + b) && After(s, a + b) == After(After(s, a), b)
    decreases |a|
  {
    hide Step, Enabled;
    if a == [] {
      assert a + b == b;
    } else {
      assert (a + b)[0] == a[0] && (a + b)[1..] == a[1..] + b;
      RunOn(Step(s, a[0]), a[1..], b);
    }
  }

  /** A run from the start, and one more event. */
  lemma Then(s: Server, events: seq<Event>, e: Event) returns (s': Server, more: seq<Event>)
    requires Runs(STARTED, events) && After(STARTED, events) == s && Enabled(s, e) && WellLocked(s)
    ensures Runs(STARTED, more) && After(STARTED, more) == s' == Step(s, e) && WellLocked(s')
  {
    StepKeepsLocked(s, e);
    hide Step, WellLocked, Enabled;
    assert [e][1..] == [] && Runs(Step(s, e), []);
    assert Runs(s, [e]) && After(s, [e]) == Step(s, e);
    RunOn(STARTED, events, [e]);
    s', more := Step(s, e), events + [e];
  }

  /** All turns are over, but perhaps one, which runs on THREAD. */
  predicate OnlyOneRuns(s: Server, busy: bool) {
    forall i | 0 <= i < |s.tasks| && !s.tasks[i].state.Ended? ::
      busy && i == 1 && s.tasks[i].key == THREAD && s.tasks[i].state.Running?
  }

  /** A new thread comes, is answered and remembered, up to the last event. */
  lemma RoundBegins(s: Server, events: seq<Event>, key: Key, busy: bool) returns (s': Server, more: seq<Event>)
    requires Runs(STARTED, events) && After(STARTED, events) == s && WellLocked(s) && OnlyOneRuns(s, busy)
    requires key !in s.cache.table && (busy ==> key != THREAD && |s.tasks| > 1 && s.tasks[1].state.Running?)
    ensures Runs(STARTED, more) && After(STARTED, more) == s' && WellLocked(s') && s'.cache == s.cache
    ensures |s'.tasks| == |s.tasks| + 1 && s'.tasks[..|s.tasks|] == s.tasks
    ensures s'.tasks[|s.tasks|].key == key && s'.tasks[|s.tasks|].state.Running?
    ensures forall k | k in s.locks :: k in s'.locks && s'.locks[k] == s.locks[k]
  {
    hide Runs, After, STARTED, WellFormed;
    var n := |s.tasks|;
    s', more := Then(s, events, Arrive(key));
    assert s'.tasks[n].key == key && forall j | 0 <= j < n :: s'.tasks[j] == s.tasks[j];
    assert Enabled(s', Acquire(n)) by {
      forall j | 0 <= j < n && s'.tasks[j].lock == s'.tasks[n].lock ensures s'.tasks[j].state.Ended? {
        assert s'.tasks[j].key == key;
      }
    }
    s', more := Then(s', more, Acquire(n));
  }

  /** What a round leaves while there is room. */
  predicate Filled(s: Server, order: seq<Key>, busy: bool) {
    && s.cache.order == order && OnlyOneRuns(s, busy)
    && (busy ==> |s.tasks| > 1 && s.tasks[1].state.Running? && s.tasks[1].key == THREAD)
  }

  lemma Round(s: Server, events: seq<Event>, key: Key, order: seq<Key>, busy: bool)
    returns (s': Server, more: seq<Event>)
    requires Runs(STARTED, events) && After(STARTED, events) == s && WellLocked(s) && Filled(s, order, busy)
    requires key !in order && |order| < MAX_THREADS && (busy ==> key != THREAD)
    ensures Runs(STARTED, more) && After(STARTED, more) == s' && WellLocked(s')
    ensures Filled(s', order + [key], busy) && |s'.tasks| == |s.tasks| + 1
  {
    assert key !in s.cache.table;
    var n := |s.tasks|;
    s', more := RoundBegins(s, events, key, busy);
    ghost var before := s';
    assert before.tasks[n].state.Running?;
    assert forall j | 0 <= j < n :: before.tasks[j] == before.tasks[..n][j] == s.tasks[j];
    hide Runs, After, STARTED, WellLocked;
    s', more := Then(s', more, Remember(n, ANY_TURN));
    WithoutNew(order, key);
    hide Updated;
  }

  /** 999 other threads beside one whose turn runs. */
  lemma {:induction false} CacheFills(s: Server, events: seq<Event>, n: nat) returns (s': Server, more: seq<Event>)
    requires Runs(STARTED, events) && After(STARTED, events) == s && WellLocked(s) && Filled(s, [THREAD], true)
    requires n < MAX_THREADS
    ensures Runs(STARTED, more) && After(STARTED, more) == s' && WellLocked(s')
      && Filled(s', [THREAD] + Others(n), true)
    decreases n
  {
    hide Runs, After, STARTED, WellLocked, Filled;
    if n == 0 {
      assert [THREAD] + Others(0) == [THREAD];
      s', more := s, events;
    } else {
      s', more := CacheFills(s, events, n - 1);
      OtherIsNew(n - 1);
      assert |[THREAD] + Others(n - 1)| == n;
      s', more := Round(s', more, Other(n - 1), [THREAD] + Others(n - 1), true);
      assert [THREAD] + Others(n - 1) + [Other(n - 1)] == [THREAD] + Others(n);
    }
  }

  /** A thread in the cache with a turn running on it. */
  lemma ThreadRuns() returns (s: Server, events: seq<Event>)
    ensures Runs(STARTED, events) && After(STARTED, events) == s && WellLocked(s) && Filled(s, [THREAD], true)
  {
    StartedIsLocked(THREAD);
    assert Runs(STARTED, []) && After(STARTED, []) == STARTED && Filled(STARTED, [], false);
    hide Runs, After;
    s, events := Round(STARTED, [], THREAD, [], false);
    assert [] + [THREAD] == [THREAD];
    hide STARTED;
    ThreadRunsAgain(s);
    s, events := Then(s, events, Arrive(THREAD));
    s, events := Then(s, events, Acquire(1));
  }

  lemma ThreadRunsAgain(s: Server)
    requires WellLocked(s) && Filled(s, [THREAD], false) && |s.tasks| == 1
    ensures var s1 := Step(s, Arrive(THREAD));
      Enabled(s1, Acquire(1)) && Filled(Step(s1, Acquire(1)), [THREAD], true)
  {
    hide WellFormed;
    var s1 := Step(s, Arrive(THREAD));
    assert s1.tasks[0] == s.tasks[0] && s.tasks[0].state.Ended?;
    assert Without([THREAD], THREAD) == [] by {
      assert [THREAD][1..] == [];
    }
    assert ToEnd([THREAD], THREAD) == [THREAD];
    assert s1.cache.order == [THREAD];
  }

  /** After 1000 other threads the one whose turn still runs is evicted; its next turn then runs beside it. */
  lemma EvictedWhileRunning() returns (events: seq<Event>)
    ensures Runs(STARTED, events) && Overlap(After(STARTED, events), THREAD)
  {
    var s;
    s, events := ThreadRuns();
    hide Runs, After, STARTED, WellLocked, Filled, Overlap, Others;
    var n := MAX_THREADS - 1;
    s, events := CacheFills(s, events, n);
    OtherIsNew(n);
    s, events := LastRound(s, events, n);
    var more := LostLockOverlaps(s, THREAD);
    RunOn(STARTED, events, more);
    events := events + more;
  }

  lemma LastRound(s: Server, events: seq<Event>, n: nat) returns (s': Server, more: seq<Event>)
    requires Runs(STARTED, events) && After(STARTED, events) == s && WellLocked(s)
      && Filled(s, [THREAD] + Others(n), true)
    requires n == MAX_THREADS - 1 && Other(n) !in [THREAD] + Others(n)
    ensures Runs(STARTED, more) && After(STARTED, more) == s' && WellLocked(s')
    ensures THREAD !in s'.locks && InUse(s', THREAD)
  {
    var key, order := Other(n), [THREAD] + Others(n);
    assert key !in s.cache.table;
    var m := |s.tasks|;
    s', more := RoundBegins(s, events, key, true);
    ghost var before := s';
    assert before.tasks[m].state.Running? && before.tasks[1] == before.tasks[..m][1] == s.tasks[1];
    WithoutNew(order, key);
    hide Runs, After, STARTED, WellLocked, Others, Updated;
    assert EvictedBy(before.cache, key) == Some(THREAD) by {
      assert ToEnd(order, key) == order + [key];
    }
    s', more := Then(s', more, Remember(m, ANY_TURN));
    assert s'.tasks[1] == before.tasks[1];
  }
}
