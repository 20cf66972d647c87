/**
 The LLM router (llm_adapter/base.py).

 Providers stand in order of preference; a call falls back to the next
 one on a retriable error, and a provider that was rate limited is left
 alone for a while. What a provider does when it is called is a
 parameter of each call. Proved is what one call streams, and from
 whom, and over any history of calls which providers a call may use.
 */
module Router {
  import opened Options

  const RATE_LIMIT_COOLDOWN_SECONDS := 30.0

  /** LLMProviderError; whether its text mentions a 429 is all the router looks at. */
  datatype ProviderError = ProviderError(retriable: bool, rateLimited: bool)

  /** What a provider does when it is called: the chunks it gives, and the error that ends them, if any, and when. */
  datatype Attempt = Attempt(chunks: seq<string>, error: Option<ProviderError>, endsAt: real)

  /** How a call ends. */
  datatype Ending =
    | Returned(provider: nat)
    | Raised(error: ProviderError)
    | NoProviders                  // reported as a non-retriable LLMProviderError

  type Table = map<string, real>

  // ---------------------------------------------------------------------------
  // The providers of a call

  predicate Cooling(table: Table, name: string, now: real) {
    (if name in table then table[name] else 0.0) > now
  }

  /** The providers, by position, from position i on, that are not cooling down. */
  function NotCooling(names: seq<string>, table: Table, now: real, i: nat): seq<nat>
    requires i <= |names|
    decreases |names| - i
  {
    if i == |names| then []
    else (if Cooling(table, names[i], now) then [] else [i]) + NotCooling(names, table, now, i + 1)
  }

  function All(n: nat, i: nat): seq<nat>
    requires i <= n
    decreases n - i
  {
    if i == n then [] else [i] + All(n, i + 1)
  }

  /** _usable_providers */
  function Usable(names: seq<string>, table: Table, now: real): seq<nat> {
    if NotCooling(names, table, now, 0) == [] then All(|names|, 0) else NotCooling(names, table, now, 0)
  }

  predicate Increasing(s: seq<nat>) {
    forall i, j | 0 <= i < j < |s| :: s[i] < s[j]
  }

  predicate Positions(names: seq<string>, s: seq<nat>) {
    forall k | 0 <= k < |s| :: s[k] < |names|
  }

  lemma ConsIncreasing(i: nat, s: seq<nat>)
    requires Increasing(s) && forall p | p in s :: i < p
    ensures Increasing([i] + s) && forall p :: p in [i] + s <==> p == i || p in s
  {
    forall a, b | 0 <= a < b < |[i] + s| ensures ([i] + s)[a] < ([i] + s)[b] {
      assert s[b - 1] in s;
      if a > 0 {
        assert s[a - 1] < s[b - 1];
      }
    }
  }

  lemma {:induction false} NotCoolingMembers(names: seq<string>, table: Table, now: real, i: nat)
    requires i <= |names|
    ensures Increasing(NotCooling(names, table, now, i))
    ensures forall p: nat ::
              p in NotCooling(names, table, now, i) <==> i <= p < |names| && !Cooling(table, names[p], now)
    decreases |names| - i
  {
    hide NotCooling, Increasing, Cooling;
    if i == |names| {
      NoneLeft(names, table, now);
    } else {
      NotCoolingMembers(names, table, now, i + 1);
      NotCoolingStep(names, table, now, i);
      if !Cooling(table, names[i], now) {
        ConsIncreasing(i, NotCooling(names, table, now, i + 1));
      }
    }
  }

  lemma NoneLeft(names: seq<string>, table: Table, now: real)
    ensures NotCooling(names, table, now, |names|) == [] && Increasing([])
  {
  }

  lemma NotCoolingStep(names: seq<string>, table: Table, now: real, i: nat)
    requires i < |names|
    ensures var rest := NotCooling(names, table, now, i + 1);
      NotCooling(names, table, now, i) == if Cooling(table, names[i], now) then rest else [i] + rest
  {
    assert [] + NotCooling(names, table, now, i + 1) == NotCooling(names, table, now, i + 1);
  }

  lemma {:induction false} AllMembers(n: nat, i: nat)
    requires i <= n
    ensures Increasing(All(n, i)) && forall p: nat :: p in All(n, i) <==> i <= p < n
    decreases n - i
  {
    if i < n {
      AllMembers(n, i + 1);
      ConsIncreasing(i, All(n, i + 1));
      hide Increasing;
    }
  }

  /** In order of preference, those that are not cooling down; everyone if all are. */
  lemma UsableMembers(names: seq<string>, table: Table, now: real)
    ensures var s := Usable(names, table, now);
      && Positions(names, s) && Increasing(s) && (names != [] ==> s != [])
      && forall p: nat :: p in s <==>
           p < |names| && (!Cooling(table, names[p], now)
             || forall q | 0 <= q < |names| :: Cooling(table, names[q], now))
  {
    hide Increasing, Cooling, NotCooling, All;
    NotCoolingMembers(names, table, now, 0);
    AllMembers(|names|, 0);
    var s, all, u := NotCooling(names, table, now, 0), All(|names|, 0), Usable(names, table, now);
    if s == [] {
      forall q | 0 <= q < |names| ensures Cooling(table, names[q], now) {
        assert q !in s;
      }
      assert names != [] ==> 0 in all;
    } else {
      assert s[0] in s;
    }
    assert forall k | 0 <= k < |u| :: u[k] in u;
  }

  // ---------------------------------------------------------------------------
  // The walk over them

  function Note(table: Table, name: string, error: ProviderError, at: real): Table {
    if error.rateLimited then table[name := at + RATE_LIMIT_COOLDOWN_SECONDS] else table
  }

  /** Whether the router goes on to the next provider after this attempt. */
  predicate FallsThrough(a: Attempt, streaming: bool) {
    a.error.Some? && a.error.value.retriable && !(streaming && a.chunks != [])
  }

  /** What one call did: who was called, in order, what was given out, how it ended, and the cooldowns after. */
  datatype Walked = Walked(tried: seq<nat>, output: seq<string>, ending: Ending, table: Table)

  /** The walk from position i of the usable providers on. */
  function Walk(names: seq<string>, usable: seq<nat>, attempts: nat -> Attempt, streaming: bool, table: Table, i: nat,
                last: Option<ProviderError>): Walked
    requires i <= |usable| && Positions(names, usable)
    decreases |usable| - i
  {
    if i == |usable| then Walked([], [], if last.Some? then Raised(last.value) else NoProviders, table)
    else
      var p, a := usable[i], attempts(usable[i]);
      if a.error.None? then Walked([p], a.chunks, Returned(p), table)
      else if !FallsThrough(a, streaming) then
        Walked([p], if streaming then a.chunks else [], Raised(a.error.value), table)
      else
        var w := Walk(names, usable, attempts, streaming, Note(table, names[p], a.error.value, a.endsAt),
          i + 1, a.error);
        w.(tried := [p] + w.tried)
  }

  /** One call of complete_with_fallback or stream_with_fallback. */
  function CallOf(names: seq<string>, table: Table, now: real, attempts: nat -> Attempt, streaming: bool): Walked {
    UsableMembers(names, table, now);
    Walk(names, Usable(names, table, now), attempts, streaming, table, 0, None)
  }

  class LLMRouter {
    const providers: seq<string>
    var rateLimitedUntil: Table

    constructor (names: seq<string>)
      ensures providers == names && rateLimitedUntil == map[]
    {
      providers := names;
      rateLimitedUntil := map[];
    }

    method UsableProviders(now: real) returns (usable: seq<nat>)
      ensures usable == Usable(providers, rateLimitedUntil, now)
    {
      usable := NotCooling(providers, rateLimitedUntil, now, 0);
      if usable == [] {
        usable := All(|providers|, 0);
      }
    }

    method NoteError(name: string, error: ProviderError, now: real)
      modifies this`rateLimitedUntil
      ensures rateLimitedUntil == Note(old(rateLimitedUntil), name, error, now)
    {
      if error.rateLimited {
        rateLimitedUntil := rateLimitedUntil[name := now + RATE_LIMIT_COOLDOWN_SECONDS];
      }
    }

    /** complete_with_fallback and, with another payload, complete_with_tools_and_fallback. */
    method CompleteWithFallback(now: real, attempts: nat -> Attempt)
      returns (tried: seq<nat>, result: seq<string>, ending: Ending)
      modifies this
      ensures Walked(tried, result, ending, rateLimitedUntil)
        == CallOf(providers, old(rateLimitedUntil), now, attempts, false)
    {
      var usable := UsableProviders(now);
      UsableMembers(providers, rateLimitedUntil, now);
      ghost var before := rateLimitedUntil;
      tried, result := [], [];
      var lastError: Option<ProviderError> := None;
      for i := 0 to |usable|
        invariant result == []
        invariant var rest := Walk(providers, usable, attempts, false, rateLimitedUntil, i, lastError);
          rest.(tried := tried + rest.tried) == Walk(providers, usable, attempts, false, before, 0, None)
      {
        var provider := usable[i];
        var attempt := attempts(provider);
        tried := tried + [provider];
        if attempt.error.None? {
          return tried, attempt.chunks, Returned(provider);
        }
        var error := attempt.error.value;
        if !error.retriable {
          return tried, [], Raised(error);
        }
        NoteError(providers[provider], error, attempt.endsAt);
        lastError := Some(error);
      }
      ending := if lastError.None? then NoProviders else Raised(lastError.value);
    }

    /** stream_with_fallback: chunks go out as they come, and only a provider that gave none is replaced. */
    method StreamWithFallback(now: real, attempts: nat -> Attempt)
      returns (tried: seq<nat>, output: seq<string>, ending: Ending)
      modifies this
      ensures Walked(tried, output, ending, rateLimitedUntil)
        == CallOf(providers, old(rateLimitedUntil), now, attempts, true)
    {
      var usable := UsableProviders(now);
      UsableMembers(providers, rateLimitedUntil, now);
      ghost var before := rateLimitedUntil;
      tried, output := [], [];
      var lastError: Option<ProviderError> := None;
      for i := 0 to |usable|
        invariant output == []
        invariant var rest := Walk(providers, usable, attempts, true, rateLimitedUntil, i, lastError);
          rest.(tried := tried + rest.tried) == Walk(providers, usable, attempts, true, before, 0, None)
      {
        var provider := usable[i];
        var attempt := attempts(provider);
        var started := false;
        tried := tried + [provider];
        for k := 0 to |attempt.chunks|
          invariant output == attempt.chunks[..k] && started == (k > 0)
        {
          started := true;
          output := output + [attempt.chunks[k]];
        }
        assert attempt.chunks[..|attempt.chunks|] == attempt.chunks;
        if attempt.error.None? {
          return tried, output, Returned(provider);
        }
        var error := attempt.error.value;
        if started || !error.retriable {
          return tried, output, Raised(error);
        }
        NoteError(providers[provider], error, attempt.endsAt);
        lastError := Some(error);
      }
      ending := if lastError.None? then NoProviders else Raised(lastError.value);
    }
  }

  // ---------------------------------------------------------------------------
  // One call

  /** What a walk from position i on does, without its cooldowns. */
  predicate Shape(usable: seq<nat>, attempts: nat -> Attempt, streaming: bool, i: nat, last: Option<ProviderError>,
                  w: Walked) {
    var n := |w.tried|;
    && i + n <= |usable| && w.tried == usable[i..i + n]
    && (forall k | 0 <= k < n - 1 :: FallsThrough(attempts(w.tried[k]), streaming))
    && (n == 0 ==> i == |usable| && w.output == [])
    && (n == 0 ==> w.ending == if last.Some? then Raised(last.value) else NoProviders)
    && (n > 0 ==>
          var a := attempts(w.tried[n - 1]);
          && (a.error.None? ==> w.ending == Returned(w.tried[n - 1]) && w.output == a.chunks)
          && (a.error.Some? ==> w.ending == Raised(a.error.value) && w.output == if streaming then a.chunks else [])
          && (FallsThrough(a, streaming) ==> i + n == |usable|))
  }

  lemma WalkStep(names: seq<string>, usable: seq<nat>, attempts: nat -> Attempt, streaming: bool,
                 table: Table, i: nat, last: Option<ProviderError>)
    requires i < |usable| && Positions(names, usable)
    ensures var p := usable[i]; var a := attempts(p); var w := Walk(names, usable, attempts, streaming, table, i, last);
      if FallsThrough(a, streaming) then
        var rest := Walk(names, usable, attempts, streaming, Note(table, names[p], a.error.value, a.endsAt),
          i + 1, a.error);
        w == rest.(tried := [p] + rest.tried)
      else
        w == Walked([p], if streaming || a.error.None? then a.chunks else [],
                    if a.error.None? then Returned(p) else Raised(a.error.value), table)
  {
  }

  lemma ShapeCons(usable: seq<nat>, attempts: nat -> Attempt, streaming: bool, i: nat, last: Option<ProviderError>,
                  rest: Walked)
    requires i < |usable| && FallsThrough(attempts(usable[i]), streaming)
    requires Shape(usable, attempts, streaming, i + 1, attempts(usable[i]).error, rest)
    ensures Shape(usable, attempts, streaming, i, last, rest.(tried := [usable[i]] + rest.tried))
  {
    var n := |rest.tried|;
    assert usable[i..i + 1 + n] == [usable[i]] + usable[i + 1..i + 1 + n];
    if n > 0 {
      assert ([usable[i]] + rest.tried)[n] == rest.tried[n - 1];
    }
  }

  lemma {:induction false} WalkShape(names: seq<string>, usable: seq<nat>, attempts: nat -> Attempt, streaming: bool,
                                    table: Table, i: nat, last: Option<ProviderError>)
    requires i <= |usable| && Positions(names, usable)
    ensures Shape(usable, attempts, streaming, i, last, Walk(names, usable, attempts, streaming, table, i, last))
    decreases |usable| - i
  {
    if i < |usable| {
      WalkStep(names, usable, attempts, streaming, table, i, last);
      hide Walk;
      var p, a := usable[i], attempts(usable[i]);
      if FallsThrough(a, streaming) {
        hide Shape;
        var table' := Note(table, names[p], a.error.value, a.endsAt);
        WalkShape(names, usable, attempts, streaming, table', i + 1, a.error);
        ShapeCons(usable, attempts, streaming, i, last,
          Walk(names, usable, attempts, streaming, table', i + 1, a.error));
      } else {
        assert usable[i..i + 1] == [p];
      }
    }
  }

  /**
   What is streamed comes from one provider alone, the last one called, unspliced;
   those called before it, in order of preference, failed retriably without a chunk;
   the call stops at the first provider that does not; and a router that has a
   provider calls one.
   */
  lemma StreamsFromOneProvider(names: seq<string>, table: Table, now: real, attempts: nat -> Attempt)
    ensures var w := CallOf(names, table, now, attempts, true);
      var usable := Usable(names, table, now); var n := |w.tried|;
      && (names != [] <==> n > 0) && (n == 0 ==> w.ending == NoProviders && w.output == [])
      && n <= |usable| && w.tried == usable[..n] && Increasing(w.tried)
      && (forall k | 0 <= k < n - 1 ::
            var a := attempts(w.tried[k]); a.chunks == [] && a.error.Some? && a.error.value.retriable)
      && (n > 0 ==>
            var a := attempts(w.tried[n - 1]);
            && w.output == a.chunks
            && w.ending == (if a.error.None? then Returned(w.tried[n - 1]) else Raised(a.error.value))
            && (a.error.Some? && a.error.value.retriable && a.chunks == [] ==> n == |usable|))
  {
    UsableMembers(names, table, now);
    var usable := Usable(names, table, now);
    WalkShape(names, usable, attempts, true, table, 0, None);
    hide Walk, Usable, Shape, Increasing, FallsThrough, Positions, Cooling;
    if usable != [] {
      assert usable[0] in usable;
    }
    StreamShape(usable, attempts, CallOf(names, table, now, attempts, true));
  }

  lemma StreamShape(usable: seq<nat>, attempts: nat -> Attempt, w: Walked)
    requires Increasing(usable) && Shape(usable, attempts, true, 0, None, w)
    ensures var n := |w.tried|;
      && n <= |usable| && w.tried == usable[..n] && Increasing(w.tried) && (usable != [] ==> n > 0)
      && (n == 0 ==> w.ending == NoProviders && w.output == [])
      && (forall k | 0 <= k < n - 1 ::
            var a := attempts(w.tried[k]); a.chunks == [] && a.error.Some? && a.error.value.retriable)
      && (n > 0 ==>
            var a := attempts(w.tried[n - 1]);
            && w.output == a.chunks
            && w.ending == (if a.error.None? then Returned(w.tried[n - 1]) else Raised(a.error.value))
            && (a.error.Some? && a.error.value.retriable && a.chunks == [] ==> n == |usable|))
  {
  }

  /**
   And what is returned whole is one provider's: those called before it, in order of
   preference, failed retriably; the call stops at the first provider that does not, with
   its result or its error; and what failing providers had given is not returned.
   */
  lemma CompletesFromOneProvider(names: seq<string>, table: Table, now: real, attempts: nat -> Attempt)
    ensures var w := CallOf(names, table, now, attempts, false);
      var usable := Usable(names, table, now); var n := |w.tried|;
      && (names != [] <==> n > 0) && (n == 0 ==> w.ending == NoProviders && w.output == [])
      && n <= |usable| && w.tried == usable[..n] && Increasing(w.tried)
      && (forall k | 0 <= k < n - 1 ::
            var a := attempts(w.tried[k]); a.error.Some? && a.error.value.retriable)
      && (n > 0 ==>
            var a := attempts(w.tried[n - 1]);
            && w.output == (if a.error.None? then a.chunks else [])
            && w.ending == (if a.error.None? then Returned(w.tried[n - 1]) else Raised(a.error.value))
            && (a.error.Some? && a.error.value.retriable ==> n == |usable|))
  {
    UsableMembers(names, table, now);
    var usable := Usable(names, table, now);
    WalkShape(names, usable, attempts, false, table, 0, None);
    hide Walk, Usable, Shape, Increasing, FallsThrough, Positions, Cooling;
    if usable != [] {
      assert usable[0] in usable;
    }
    CompleteShape(usable, attempts, CallOf(names, table, now, attempts, false));
  }

  lemma CompleteShape(usable: seq<nat>, attempts: nat -> Attempt, w: Walked)
    requires Increasing(usable) && Shape(usable, attempts, false, 0, None, w)
    ensures var n := |w.tried|;
      && n <= |usable| && w.tried == usable[..n] && Increasing(w.tried) && (usable != [] ==> n > 0)
      && (n == 0 ==> w.ending == NoProviders && w.output == [])
      && (forall k | 0 <= k < n - 1 ::
            var a := attempts(w.tried[k]); a.error.Some? && a.error.value.retriable)
      && (n > 0 ==>
            var a := attempts(w.tried[n - 1]);
            && w.output == (if a.error.None? then a.chunks else [])
            && w.ending == (if a.error.None? then Returned(w.tried[n - 1]) else Raised(a.error.value))
            && (a.error.Some? && a.error.value.retriable ==> n == |usable|))
  {
  }

  // ---------------------------------------------------------------------------
  // A history of calls

  datatype Call = Call(start: real, attempts: nat -> Attempt, streaming: bool)

  function TableAfter(names: seq<string>, calls: seq<Call>, n: nat): Table
    requires n <= |calls|
  {
    if n == 0 then map[]
    else CallOf(names, TableAfter(names, calls, n - 1), calls[n - 1].start, calls[n - 1].attempts,
      calls[n - 1].streaming).table
  }

  /** A remembered rate limit: whose, and when. */
  datatype Limit = Limit(name: string, at: real)

  predicate Remembered(a: Attempt, streaming: bool) {
    a.error.Some? && a.error.value.retriable && a.error.value.rateLimited && (streaming ==> a.chunks == [])
  }

  /** The rate limits a walk remembers, in order. */
  function LimitsOf(names: seq<string>, tried: seq<nat>, attempts: nat -> Attempt, streaming: bool): seq<Limit>
    requires Positions(names, tried)
  {
    if tried == [] then []
    else
      (if Remembered(attempts(tried[0]), streaming) then [Limit(names[tried[0]], attempts(tried[0]).endsAt)] else [])
      + LimitsOf(names, tried[1..], attempts, streaming)
  }

  lemma {:induction false} LimitsOfMembers(names: seq<string>, tried: seq<nat>, attempts: nat -> Attempt,
                                           streaming: bool, limit: Limit)
    requires Positions(names, tried)
    ensures limit in LimitsOf(names, tried, attempts, streaming) <==>
      exists p | p in tried ::
        Remembered(attempts(p), streaming) && limit == Limit(names[p], attempts(p).endsAt)
  {
    if tried != [] {
      LimitsOfMembers(names, tried[1..], attempts, streaming, limit);
      assert tried == [tried[0]] + tried[1..];
    }
  }

  function Remember(table: Table, limits: seq<Limit>): Table {
    if limits == [] then table
    else
      var last := limits[|limits| - 1];
      Remember(table, limits[..|limits| - 1])[last.name := last.at + RATE_LIMIT_COOLDOWN_SECONDS]
  }

  lemma {:induction false} RememberConcat(table: Table, a: seq<Limit>, b: seq<Limit>)
    ensures Remember(table, a + b) == Remember(Remember(table, a), b)
    decreases |b|
  {
    if b == [] {
      assert a + b == a;
    } else {
      assert (a + b)[..|a + b| - 1] == a + b[..|b| - 1];
      RememberConcat(table, a, b[..|b| - 1]);
    }
  }

  lemma {:induction false} WalkRemembers(names: seq<string>, usable: seq<nat>, attempts: nat -> Attempt,
                                         streaming: bool,
                                        table: Table, i: nat, last: Option<ProviderError>)
    requires i <= |usable| && Positions(names, usable)
    ensures var w := Walk(names, usable, attempts, streaming, table, i, last);
      Positions(names, w.tried) && w.table == Remember(table, LimitsOf(names, w.tried, attempts, streaming))
    decreases |usable| - i
  {
    if i < |usable| {
      WalkStep(names, usable, attempts, streaming, table, i, last);
      hide Remember, LimitsOf, Walk, Positions;
      var p, a := usable[i], attempts(usable[i]);
      PositionAt(names, usable, i);
      if FallsThrough(a, streaming) {
        var table' := Note(table, names[p], a.error.value, a.endsAt);
        WalkRemembers(names, usable, attempts, streaming, table', i + 1, a.error);
        FallRemembers(names, p, Walk(names, usable, attempts, streaming, table', i + 1, a.error).tried, attempts,
          streaming, table);
      } else {
        LimitsCons(names, p, [], attempts, streaming);
        NothingRemembered(table);
      }
    }
  }

  lemma PositionAt(names: seq<string>, s: seq<nat>, i: nat)
    requires Positions(names, s) && i < |s|
    ensures s[i] < |names| && Positions(names, [s[i]]) && Positions(names, [])
  {
  }

  lemma FallRemembers(names: seq<string>, p: nat, tried: seq<nat>, attempts: nat -> Attempt, streaming: bool,
                      table: Table)
    requires p < |names| && Positions(names, tried) && FallsThrough(attempts(p), streaming)
    ensures Positions(names, [p] + tried)
    ensures var a := attempts(p);
      Remember(Note(table, names[p], a.error.value, a.endsAt), LimitsOf(names, tried, attempts, streaming))
      == Remember(table, LimitsOf(names, [p] + tried, attempts, streaming))
  {
    hide Remember, LimitsOf;
    var first := LimitsOf(names, [p], attempts, streaming);
    LimitsCons(names, p, tried, attempts, streaming);
    RememberOne(table, first);
    RememberConcat(table, first, LimitsOf(names, tried, attempts, streaming));
  }

  lemma LimitsCons(names: seq<string>, p: nat, tried: seq<nat>, attempts: nat -> Attempt, streaming: bool)
    requires p < |names| && Positions(names, tried)
    ensures LimitsOf(names, [p] + tried, attempts, streaming)
      == (if Remembered(attempts(p), streaming) then [Limit(names[p], attempts(p).endsAt)] else [])
         + LimitsOf(names, tried, attempts, streaming)
    ensures [p] + [] == [p] && LimitsOf(names, [], attempts, streaming) == []
    ensures LimitsOf(names, [p], attempts, streaming)
      == if Remembered(attempts(p), streaming) then [Limit(names[p], attempts(p).endsAt)] else []
  {
    assert ([p] + tried)[1..] == tried;
    assert [p][1..] == [];
  }

  lemma RememberOne(table: Table, limits: seq<Limit>)
    requires |limits| <= 1
    ensures Remember(table, limits)
      == if limits == [] then table else table[limits[0].name := limits[0].at + RATE_LIMIT_COOLDOWN_SECONDS]
  {
    if limits != [] {
      assert limits[..0] == [];
    }
  }

  /** The rate limits remembered by the first n calls, in order. */
  function Limits(names: seq<string>, calls: seq<Call>, n: nat): seq<Limit>
    requires n <= |calls|
  {
    if n == 0 then []
    else
      var c, table := calls[n - 1], TableAfter(names, calls, n - 1);
      CallRemembers(names, table, c.start, c.attempts, c.streaming);
      Limits(names, calls, n - 1)
      + LimitsOf(names, CallOf(names, table, c.start, c.attempts, c.streaming).tried, c.attempts, c.streaming)
  }

  lemma CallRemembers(names: seq<string>, table: Table, now: real, attempts: nat -> Attempt, streaming: bool)
    ensures var w := CallOf(names, table, now, attempts, streaming);
      Positions(names, w.tried) && w.table == Remember(table, LimitsOf(names, w.tried, attempts, streaming))
  {
    UsableMembers(names, table, now);
    WalkRemembers(names, Usable(names, table, now), attempts, streaming, table, 0, None);
  }

  lemma {:induction false} TableRemembers(names: seq<string>, calls: seq<Call>, n: nat)
    requires n <= |calls|
    ensures TableAfter(names, calls, n) == Remember(map[], Limits(names, calls, n))
  {
    hide CallOf, LimitsOf, Remember;
    if n == 0 {
      NothingRemembered(map[]);
    } else {
      TableRemembers(names, calls, n - 1);
      var c, table := calls[n - 1], TableAfter(names, calls, n - 1);
      CallRemembers(names, table, c.start, c.attempts, c.streaming);
      RememberConcat(map[], Limits(names, calls, n - 1),
        LimitsOf(names, CallOf(names, table, c.start, c.attempts, c.streaming).tried, c.attempts, c.streaming));
    }
  }

  lemma NothingRemembered(table: Table)
    ensures Remember(table, []) == table
  {
  }

  /** The clock does not go back between remembered limits. */
  predicate Sorted(limits: seq<Limit>) {
    forall i, j | 0 <= i < j < |limits| :: limits[i].at <= limits[j].at
  }

  /** The providers that call i called, in order. */
  function Tried(names: seq<string>, calls: seq<Call>, i: nat): (tried: seq<nat>)
    requires i < |calls|
    ensures Positions(names, tried)
  {
    var c, table := calls[i], TableAfter(names, calls, i);
    CallRemembers(names, table, c.start, c.attempts, c.streaming);
    CallOf(names, table, c.start, c.attempts, c.streaming).tried
  }

  /** The rate limits that call i remembered. */
  function CallLimits(names: seq<string>, calls: seq<Call>, i: nat): seq<Limit>
    requires i < |calls|
  {
    LimitsOf(names, Tried(names, calls, i), calls[i].attempts, calls[i].streaming)
  }

  /** When call i's attempt of provider p ended. */
  function EndOf(calls: seq<Call>, i: nat, p: nat): real
    requires i < |calls|
  {
    calls[i].attempts(p).endsAt
  }

  /** The calls come one after the other, and the clock, which starts at 0, never goes back. */
  predicate MonotoneClock(names: seq<string>, calls: seq<Call>) {
    && (forall i | 0 <= i < |calls| :: calls[i].start >= 0.0)
    && (forall i, p | 0 <= i < |calls| && p in Tried(names, calls, i) :: calls[i].start <= EndOf(calls, i, p))
    && (forall i, k, l | 0 <= i < |calls| && 0 <= k < l < |Tried(names, calls, i)| ::
          EndOf(calls, i, Tried(names, calls, i)[k]) <= EndOf(calls, i, Tried(names, calls, i)[l]))
    && (forall i, j, p | 0 <= i < j < |calls| && p in Tried(names, calls, i) :: EndOf(calls, i, p) <= calls[j].start)
  }

  /** Call i called provider p, of this name, and went on to another because of a 429. */
  predicate LimitedBy(names: seq<string>, calls: seq<Call>, i: nat, p: nat, name: string) {
    && i < |calls| && p in Tried(names, calls, i) && p < |names| && names[p] == name
    && Remembered(calls[i].attempts(p), calls[i].streaming)
  }

  /** Call i added this limit. */
  ghost predicate AddedBy(names: seq<string>, calls: seq<Call>, i: nat, limit: Limit) {
    exists p :: LimitedBy(names, calls, i, p, limit.name) && limit.at == EndOf(calls, i, p)
  }

  lemma AddedByCall(names: seq<string>, calls: seq<Call>, i: nat, limit: Limit)
    requires i < |calls|
    ensures limit in CallLimits(names, calls, i) <==> AddedBy(names, calls, i, limit)
  {
    var c, tried := calls[i], Tried(names, calls, i);
    hide Tried, LimitsOf;
    LimitsOfMembers(names, tried, c.attempts, c.streaming, limit);
    if p: nat :|
      p in tried && Remembered(c.attempts(p), c.streaming) && limit == Limit(names[p], c.attempts(p).endsAt)
    {
      assert LimitedBy(names, calls, i, p, limit.name);
    }
    if p: nat :| LimitedBy(names, calls, i, p, limit.name) && limit.at == EndOf(calls, i, p) {
      assert limit == Limit(names[p], c.attempts(p).endsAt);
    }
  }

  lemma LimitsGrow(names: seq<string>, calls: seq<Call>, n: nat)
    requires 0 < n <= |calls|
    ensures Limits(names, calls, n) == Limits(names, calls, n - 1) + CallLimits(names, calls, n - 1)
  {
    hide LimitsOf, CallOf;
  }

  /** One of the first n calls added this limit. */
  ghost predicate AddedBefore(names: seq<string>, calls: seq<Call>, n: nat, limit: Limit) {
    exists i | 0 <= i < n :: AddedBy(names, calls, i, limit)
  }

  lemma AddedBeforeStep(names: seq<string>, calls: seq<Call>, n: nat, limit: Limit)
    ensures !AddedBefore(names, calls, 0, limit)
    ensures AddedBefore(names, calls, n + 1, limit)
      <==> AddedBefore(names, calls, n, limit) || AddedBy(names, calls, n, limit)
  {
    hide AddedBy;
    if i :| 0 <= i < n + 1 && AddedBy(names, calls, i, limit) {
      assert i < n || i == n;
    }
  }

  lemma {:induction false} LimitsMembers(names: seq<string>, calls: seq<Call>, n: nat, limit: Limit)
    requires n <= |calls|
    ensures limit in Limits(names, calls, n) <==> AddedBefore(names, calls, n, limit)
  {
    hide Limits, CallLimits, AddedBy, AddedBefore, Sorted;
    if n == 0 {
      NoLimits(names, calls);
      AddedBeforeStep(names, calls, 0, limit);
    } else {
      LimitsGrow(names, calls, n);
      LimitsMembers(names, calls, n - 1, limit);
      AddedByCall(names, calls, n - 1, limit);
      AddedBeforeStep(names, calls, n - 1, limit);
      var last := CallLimits(names, calls, n - 1);
      assert limit in Limits(names, calls, n) <==> limit in Limits(names, calls, n - 1) || limit in last;
    }
  }

  lemma {:induction false} LimitsOfSorted(names: seq<string>, tried: seq<nat>, attempts: nat -> Attempt,
                                          streaming: bool)
    requires Positions(names, tried)
    requires forall k, l | 0 <= k < l < |tried| :: attempts(tried[k]).endsAt <= attempts(tried[l]).endsAt
    ensures Sorted(LimitsOf(names, tried, attempts, streaming))
  {
    if tried != [] {
      LimitsOfSorted(names, tried[1..], attempts, streaming);
      var rest := LimitsOf(names, tried[1..], attempts, streaming);
      forall k | 0 <= k < |rest| ensures attempts(tried[0]).endsAt <= rest[k].at {
        LimitsOfMembers(names, tried[1..], attempts, streaming, rest[k]);
        var p :| p in tried[1..] && rest[k] == Limit(names[p], attempts(p).endsAt);
        var l :| 0 <= l < |tried[1..]| && tried[1..][l] == p;
        assert tried[l + 1] == p;
      }
    }
  }

  lemma SortedConcat(a: seq<Limit>, b: seq<Limit>, at: real)
    requires Sorted(a) && Sorted(b) && (forall l | l in a :: l.at <= at) && (forall l | l in b :: at <= l.at)
    ensures Sorted(a + b)
  {
    var s := a + b;
    forall i, j | 0 <= i < j < |s| ensures s[i].at <= s[j].at {
      if i < |a| <= j {
        assert s[i] in a && s[j] in b;
      }
    }
  }

  lemma LimitBefore(names: seq<string>, calls: seq<Call>, n: nat, limit: Limit)
    requires MonotoneClock(names, calls) && n < |calls| && limit in Limits(names, calls, n)
    ensures limit.at <= calls[n].start
  {
    LimitsMembers(names, calls, n, limit);
    hide Limits, Tried;
    var i :| 0 <= i < n && AddedBy(names, calls, i, limit);
    var p :| LimitedBy(names, calls, i, p, limit.name) && limit.at == EndOf(calls, i, p);
  }

  lemma LimitWithin(names: seq<string>, calls: seq<Call>, i: nat, limit: Limit)
    requires MonotoneClock(names, calls) && i < |calls|
    requires limit in CallLimits(names, calls, i)
    ensures calls[i].start <= limit.at
  {
    AddedByCall(names, calls, i, limit);
    hide LimitsOf, Tried;
    var p :| LimitedBy(names, calls, i, p, limit.name) && limit.at == EndOf(calls, i, p);
  }

  lemma NoLimits(names: seq<string>, calls: seq<Call>)
    ensures Limits(names, calls, 0) == [] && Sorted([])
  {
  }

  /** With such a clock the limits are remembered in order of time. */
  lemma {:induction false} LimitsSorted(names: seq<string>, calls: seq<Call>, n: nat)
    requires MonotoneClock(names, calls) && n <= |calls|
    ensures Sorted(Limits(names, calls, n))
  {
    hide Limits, LimitsOf, Tried, Sorted, MonotoneClock, TableAfter, CallOf, Positions;
    if n == 0 {
      NoLimits(names, calls);
    } else {
      LimitsSorted(names, calls, n - 1);
      CallLimitsSorted(names, calls, n - 1);
      LimitsGrow(names, calls, n);
      forall l | l in Limits(names, calls, n - 1) ensures l.at <= calls[n - 1].start {
        LimitBefore(names, calls, n - 1, l);
      }
      SortedConcat(Limits(names, calls, n - 1), CallLimits(names, calls, n - 1), calls[n - 1].start);
    }
  }

  lemma CallLimitsSorted(names: seq<string>, calls: seq<Call>, i: nat)
    requires MonotoneClock(names, calls) && i < |calls|
    ensures Sorted(CallLimits(names, calls, i)) && forall l | l in CallLimits(names, calls, i) :: calls[i].start <= l.at
  {
    hide LimitsOf, Tried, Sorted, MonotoneClock, TableAfter, CallOf, Positions;
    ClockOfCall(names, calls, i);
    LimitsOfSorted(names, Tried(names, calls, i), calls[i].attempts, calls[i].streaming);
    forall l | l in CallLimits(names, calls, i) ensures calls[i].start <= l.at {
      LimitWithin(names, calls, i, l);
    }
  }

  lemma ClockOfCall(names: seq<string>, calls: seq<Call>, i: nat)
    requires MonotoneClock(names, calls) && i < |calls|
    ensures var tried := Tried(names, calls, i);
      forall k, l | 0 <= k < l < |tried| :: calls[i].attempts(tried[k]).endsAt <= calls[i].attempts(tried[l]).endsAt
  {
    hide Tried;
    var tried := Tried(names, calls, i);
    forall k, l | 0 <= k < l < |tried|
      ensures calls[i].attempts(tried[k]).endsAt <= calls[i].attempts(tried[l]).endsAt
    {
      assert EndOf(calls, i, tried[k]) <= EndOf(calls, i, tried[l]);
    }
  }

  /** The table holds the latest of the limits of the name, with the cooldown added. */
  ghost predicate HoldsLatest(table: Table, limits: seq<Limit>, name: string) {
    && (name in table ==> exists l | l in limits :: l.name == name && table[name] == l.at + RATE_LIMIT_COOLDOWN_SECONDS)
    && (forall l | l in limits && l.name == name :: name in table && l.at + RATE_LIMIT_COOLDOWN_SECONDS <= table[name])
  }

  lemma HoldsLatestSnoc(table: Table, limits: seq<Limit>, last: Limit, name: string)
    requires HoldsLatest(table, limits, name) && forall l | l in limits :: l.at <= last.at
    ensures HoldsLatest(table[last.name := last.at + RATE_LIMIT_COOLDOWN_SECONDS], limits + [last], name)
  {
    assert last in limits + [last] && forall l :: l in limits ==> l in limits + [last];
  }

  lemma {:induction false} LatestIsHeld(limits: seq<Limit>, name: string)
    requires Sorted(limits)
    ensures HoldsLatest(Remember(map[], limits), limits, name)
    decreases |limits|
  {
    if limits != [] {
      var front, last := limits[..|limits| - 1], limits[|limits| - 1];
      assert limits == front + [last];
      LatestIsHeld(front, name);
      forall l | l in front ensures l.at <= last.at {
        var i :| 0 <= i < |front| && front[i] == l;
        assert limits[i] == l;
      }
      hide HoldsLatest;
      HoldsLatestSnoc(Remember(map[], front), front, last, name);
    }
  }

  /**
   Over any history of calls, the router's table holds a name exactly if some call
   called a provider of that name and went on because of a 429; and until 30 seconds
   after the latest such attempt ended.
   */
  lemma RememberedExactly(names: seq<string>, calls: seq<Call>, n: nat, name: string)
    requires MonotoneClock(names, calls) && n <= |calls|
    ensures var table := TableAfter(names, calls, n);
      && (name in table <==> exists i, p | 0 <= i < n :: LimitedBy(names, calls, i, p, name))
      && (name in table ==> exists i, p | 0 <= i < n ::
            LimitedBy(names, calls, i, p, name) && table[name] == EndOf(calls, i, p) + 30.0)
      && (forall i, p | 0 <= i < n && LimitedBy(names, calls, i, p, name) ::
            name in table && EndOf(calls, i, p) + 30.0 <= table[name])
  {
    var table, limits := TableAfter(names, calls, n), Limits(names, calls, n);
    hide TableAfter, Limits, Remember, Tried, LimitedBy, Sorted, MonotoneClock, CallOf;
    TableRemembers(names, calls, n);
    LimitsSorted(names, calls, n);
    LatestIsHeld(limits, name);
    if name in table {
      var l :| l in limits && l.name == name && table[name] == l.at + RATE_LIMIT_COOLDOWN_SECONDS;
      LimitsMembers(names, calls, n, l);
      var i :| 0 <= i < n && AddedBy(names, calls, i, l);
      var p :| LimitedBy(names, calls, i, p, name) && l.at == EndOf(calls, i, p);
    }
    forall i, p | 0 <= i < n && LimitedBy(names, calls, i, p, name)
      ensures name in table && EndOf(calls, i, p) + 30.0 <= table[name]
    {
      var l := Limit(name, EndOf(calls, i, p));
      assert AddedBy(names, calls, i, l);
      LimitsMembers(names, calls, n, l);
    }
  }

  /** One of the first n calls went on from a provider of this name because of a 429, less than the cooldown ago. */
  ghost predicate RecentlyLimited(names: seq<string>, calls: seq<Call>, n: nat, name: string, now: real)
    requires n <= |calls|
  {
    exists i, p | 0 <= i < n :: LimitedBy(names, calls, i, p, name)
      && now < EndOf(calls, i, p) + 30.0
  }

  lemma CoolingExactly(names: seq<string>, calls: seq<Call>, n: nat, name: string, now: real)
    requires MonotoneClock(names, calls) && n <= |calls| && now >= 0.0
    ensures Cooling(TableAfter(names, calls, n), name, now) <==> RecentlyLimited(names, calls, n, name, now)
  {
    RememberedExactly(names, calls, n, name);
    hide TableAfter, LimitedBy, MonotoneClock;
  }

  /**
   Over any history of calls with a clock that does not go back: the next call may
   use a provider exactly if no provider of its name was replaced because of a 429
   within the last 30 seconds, or if every name was.
   */
  lemma CooldownIsKept(names: seq<string>, calls: seq<Call>, n: nat, p: nat)
    requires n < |calls| && MonotoneClock(names, calls)
    ensures var now, usable := calls[n].start, Usable(names, TableAfter(names, calls, n), calls[n].start);
      && (p in usable <==>
            && p < |names|
            && (!RecentlyLimited(names, calls, n, names[p], now)
                  || forall q | 0 <= q < |names| :: RecentlyLimited(names, calls, n, names[q], now)))
      && (p in Tried(names, calls, n) ==> p in usable)
  {
    var c, table := calls[n], TableAfter(names, calls, n);
    UsableMembers(names, table, c.start);
    WalkShape(names, Usable(names, table, c.start), c.attempts, c.streaming, table, 0, None);
    forall q | 0 <= q < |names|
      ensures Cooling(table, names[q], c.start) <==> RecentlyLimited(names, calls, n, names[q], c.start)
    {
      CoolingExactly(names, calls, n, names[q], c.start);
    }
    hide Walk, Usable, TableAfter, RecentlyLimited, Cooling, MonotoneClock;
  }
}
