/**
 The confirmation gate for irreversible tools (security/confirmation.py), in its
 in-memory form: a token is issued for one action, and can be redeemed once, for
 exactly that action, before it expires.
 */
module ConfirmationGate {
  type Token = string

  datatype Action = Action(tool: string, args: string)

  datatype Entry = Entry(action: Action, expiresAt: real)

  // ---------------------------------------------------------------------------
  // The operations on a table of pending tokens

  function Evict(pending: map<Token, Entry>, now: real): map<Token, Entry> {
    map t | t in pending && now < pending[t].expiresAt :: pending[t]
  }

  /** One call of the gate, and which turn made it; a request reads the clock twice, to evict and to set the expiry. */
  datatype Op =
    | Request(turn: nat, token: Token, action: Action, evictAt: real, at: real)
    | Consume(turn: nat, token: Token, action: Action, at: real)

  predicate Grants(pending: map<Token, Entry>, op: Op)
    requires op.Consume?
  {
    op.token in pending && op.at < pending[op.token].expiresAt && pending[op.token].action == op.action
  }

  function Apply(pending: map<Token, Entry>, op: Op, ttl: real): map<Token, Entry> {
    match op
    case Request(_, token, action, evictAt, at) => Evict(pending, evictAt)[token := Entry(action, at + ttl)]
    case Consume(_, token, action, at) =>
      if Grants(pending, op) || (token in pending && at >= pending[token].expiresAt) then pending - {token} else pending
  }

  /** The table after the first n calls. */
  function PendingAfter(ops: seq<Op>, n: nat, ttl: real): map<Token, Entry>
    requires n <= |ops|
  {
    if n == 0 then map[] else Apply(PendingAfter(ops, n - 1, ttl), ops[n - 1], ttl)
  }

  /** The i-th call is a consume that returned True. */
  predicate Granted(ops: seq<Op>, i: nat, ttl: real) {
    i < |ops| && ops[i].Consume? && Grants(PendingAfter(ops, i, ttl), ops[i])
  }

  // ---------------------------------------------------------------------------
  // The gate

  class ConfirmationGate {
    const ttl: real
    var pending: map<Token, Entry>
    ghost var ops: seq<Op>   // every call so far

    ghost predicate Valid()
      reads this
    {
      pending == PendingAfter(ops, |ops|, ttl)
    }

    constructor (ttlSeconds: real)
      ensures Valid() && ttl == ttlSeconds && ops == []
    {
      ttl := ttlSeconds;
      pending := map[];
      ops := [];
    }

    /** _evict_expired: collect the expired tokens, then delete them one by one. */
    method EvictExpired(now: real)
      modifies this`pending
      ensures pending == Evict(old(pending), now)
    {
      var expired := set t | t in pending && now >= pending[t].expiresAt;
      ghost var all, before := expired, pending;
      while expired != {}
        invariant expired <= all && pending == before - (all - expired)
        decreases |expired|
      {
        var token :| token in expired;
        assert before - (all - expired) - {token} == before - (all - (expired - {token}));
        pending := pending - {token};
        expired := expired - {token};
      }
      assert all - {} == all;
    }

    /** request_confirmation */
    method RequestConfirmation(token: Token, action: Action, evictAt: real, at: real, ghost turn: nat)
      requires Valid()
      modifies this
      ensures Valid() && ops == old(ops) + [Request(turn, token, action, evictAt, at)]
    {
      ghost var before := ops;
      EvictExpired(evictAt);
      pending := pending[token := Entry(action, at + ttl)];
      ops := ops + [Request(turn, token, action, evictAt, at)];
      PendingAfterPrefix(before, ops, |before|, ttl);
    }

    /** consume */
    method Consume(token: Token, action: Action, at: real, ghost turn: nat) returns (ok: bool)
      requires Valid()
      modifies this
      ensures Valid() && ops == old(ops) + [Op.Consume(turn, token, action, at)]
      ensures ok <==> Granted(ops, |ops| - 1, ttl)
      ensures forall t | t in old(pending) && (t != token || (!ok && at < old(pending)[t].expiresAt)) ::
                t in pending && pending[t] == old(pending)[t]
      ensures ok ==> token in old(pending) && token !in pending
      ensures pending.Keys <= old(pending).Keys
    {
      ghost var before := ops;
      ops := ops + [Op.Consume(turn, token, action, at)];
      PendingAfterPrefix(before, ops, |before|, ttl);
      if token !in pending {
        return false;
      }
      var entry := pending[token];
      if at >= entry.expiresAt {
        pending := pending - {token};
        return false;
      }
      if entry.action != action {
        return false;
      }
      pending := pending - {token};
      return true;
    }
  }

  /**
   A request clears the table of what has expired: an older token is kept, as it was,
   exactly if its time is not yet over; and the new one is there for its action.
   */
  lemma RequestKeepsExactly(ops: seq<Op>, n: nat, ttl: real, t: Token)
    requires n < |ops| && ops[n].Request?
    ensures var before, after, op := PendingAfter(ops, n, ttl), PendingAfter(ops, n + 1, ttl), ops[n];
      if t == op.token then t in after && after[t] == Entry(op.action, op.at + ttl)
      else
        && (t in after <==> t in before && op.evictAt < before[t].expiresAt)
        && (t in after ==> after[t] == before[t])
  {
    OneCallMore(ops, n, ttl);
    hide PendingAfter;
  }

  lemma OneCallMore(ops: seq<Op>, n: nat, ttl: real)
    requires n < |ops|
    ensures PendingAfter(ops, n + 1, ttl) == Apply(PendingAfter(ops, n, ttl), ops[n], ttl)
  {
  }

  lemma {:induction false} PendingAfterPrefix(ops: seq<Op>, more: seq<Op>, n: nat, ttl: real)
    requires ops <= more && n <= |ops|
    ensures PendingAfter(ops, n, ttl) == PendingAfter(more, n, ttl)
    decreases n
  {
    if n > 0 {
      PendingAfterPrefix(ops, more, n - 1, ttl);
    }
  }

  // ---------------------------------------------------------------------------
  // What a whole history of calls guarantees

  /** No token is issued twice. */
  predicate FreshTokens(ops: seq<Op>) {
    forall i, j | 0 <= i < j < |ops| && ops[i].Request? && ops[j].Request? :: ops[i].token != ops[j].token
  }

  /** The clock never goes back. */
  predicate Monotone(ops: seq<Op>) {
    && (forall i | 0 <= i < |ops| && ops[i].Request? :: ops[i].evictAt <= ops[i].at)
    && (forall i, j | 0 <= i < j < |ops| :: ops[i].at <= if ops[j].Request? then ops[j].evictAt else ops[j].at)
  }

  /** Call k issued the token for this action. */
  predicate IssuedBy(ops: seq<Op>, k: nat, token: Token, action: Action) {
    k < |ops| && ops[k].Request? && ops[k].token == token && ops[k].action == action
  }

  /** Between calls k and n nobody redeemed the token. */
  predicate Unredeemed(ops: seq<Op>, k: nat, n: nat, token: Token, ttl: real) {
    forall j | k < j < n && Granted(ops, j, ttl) :: ops[j].token != token
  }

  /** A pending token was issued for its action, and not redeemed since. */
  lemma {:induction false} PendingWasIssued(ops: seq<Op>, n: nat, ttl: real, token: Token) returns (k: nat)
    requires FreshTokens(ops) && n <= |ops| && token in PendingAfter(ops, n, ttl)
    ensures k < n && IssuedBy(ops, k, token, PendingAfter(ops, n, ttl)[token].action)
    ensures PendingAfter(ops, n, ttl)[token].expiresAt == ops[k].at + ttl
    ensures Unredeemed(ops, k, n, token, ttl)
    decreases n
  {
    var last := ops[n - 1];
    var before := PendingAfter(ops, n - 1, ttl);
    if last.Request? && last.token == token {
      k := n - 1;
    } else {
      assert token in before;
      k := PendingWasIssued(ops, n - 1, ttl, token);
      assert Granted(ops, n - 1, ttl) ==> last.token != token;
    }
  }

  /** An issued token nobody redeemed is pending as long as it has not expired. */
  lemma {:induction false} UnexpiredIsPending(ops: seq<Op>, k: nat, n: nat, ttl: real)
    requires FreshTokens(ops) && Monotone(ops) && k < n <= |ops| && ops[k].Request?
    requires Unredeemed(ops, k, n, ops[k].token, ttl)
    requires forall j | k < j < n :: (if ops[j].Request? then ops[j].evictAt else ops[j].at) < ops[k].at + ttl
    ensures var pending := PendingAfter(ops, n, ttl);
      ops[k].token in pending && pending[ops[k].token] == Entry(ops[k].action, ops[k].at + ttl)
    decreases n
  {
    if k < n - 1 {
      UnexpiredIsPending(ops, k, n - 1, ttl);
      assert !(Granted(ops, n - 1, ttl) && ops[n - 1].token == ops[k].token);
    }
  }

  /**
   A consume is granted exactly if its token was issued for this very tool and these
   arguments, has not been redeemed since, and has not expired.
   */
  lemma GrantedExactly(ops: seq<Op>, i: nat, ttl: real)
    requires FreshTokens(ops) && Monotone(ops) && i < |ops| && ops[i].Consume?
    ensures Granted(ops, i, ttl) <==>
      exists k | 0 <= k < i ::
        && IssuedBy(ops, k, ops[i].token, ops[i].action)
        && ops[i].at < ops[k].at + ttl
        && Unredeemed(ops, k, i, ops[i].token, ttl)
  {
    if Granted(ops, i, ttl) {
      var k := PendingWasIssued(ops, i, ttl, ops[i].token);
    }
    var token, action := ops[i].token, ops[i].action;
    if k: nat :|
      k < i && IssuedBy(ops, k, token, action) && ops[i].at < ops[k].at + ttl && Unredeemed(ops, k, i, token, ttl)
    {
      forall j | k < j < i ensures (if ops[j].Request? then ops[j].evictAt else ops[j].at) < ops[k].at + ttl {
        assert ops[j].at <= ops[i].at;
      }
      UnexpiredIsPending(ops, k, i, ttl);
    }
  }

  /** The call that issued the token a granted consume redeems. */
  lemma RedeemsIssue(ops: seq<Op>, i: nat, ttl: real) returns (k: nat)
    requires FreshTokens(ops) && Granted(ops, i, ttl)
    ensures k < i && IssuedBy(ops, k, ops[i].token, ops[i].action) && ops[i].at < ops[k].at + ttl
  {
    k := PendingWasIssued(ops, i, ttl, ops[i].token);
  }

  /** Redemptions inject into issues: no token is redeemed twice, whatever happens in between. */
  lemma RedeemedOnce(ops: seq<Op>, i: nat, j: nat, ttl: real)
    requires FreshTokens(ops) && i < j && Granted(ops, i, ttl) && Granted(ops, j, ttl)
    ensures ops[i].token != ops[j].token
  {
    var a := PendingWasIssued(ops, i, ttl, ops[i].token);
    var b := PendingWasIssued(ops, j, ttl, ops[j].token);
    assert ops[i].token == ops[j].token ==> a == b;
  }
}
