/**
 * The challenge store behind the `Cache` interface: issued tokens with their
 * expiry time. A token is live while it is present and not yet expired;
 * expiry is checked lazily when the token is looked up.
 *
 * Whether the backing store answers a given call is outside the server's
 * control, so `Add` and `Get` take it as an input (`available`), like the
 * clock reading: a store may answer one call and fail the next.
 */
module ChallengeStore {

  /** The store's observable state: token -> expiry (unix seconds). */
  datatype Store = Store(entries: map<int, int>)

  /** `Get`'s answer: found or not, or an error from the backing store. */
  datatype Lookup = Answer(found: bool) | Unavailable

  predicate Live(entries: map<int, int>, token: int, now: int) {
    token in entries && now <= entries[token]
  }

  /** `Add(token, ttl)` at time `now`, on a store that answers. */
  function Insert(s: Store, token: int, ttl: int, now: int): (r: Store)
    ensures r.entries.Keys == s.entries.Keys + {token}
    // the token is live up to `ttl` seconds from now, and expired after that
    ensures forall t :: Live(r.entries, token, t) <==> t <= now + ttl
    ensures forall k :: k in s.entries && k != token ==> k in r.entries && r.entries[k] == s.entries[k]
  {
    s.(entries := s.entries[token := now + ttl])
  }

  /** `Delete(token)`: idempotent removal. */
  function Remove(s: Store, token: int): (r: Store)
    ensures r.entries.Keys == s.entries.Keys - {token}
    ensures forall t :: !Live(r.entries, token, t)
    ensures forall k :: k in r.entries ==> r.entries[k] == s.entries[k]
  {
    s.(entries := s.entries - {token})
  }

  /** `Get(token)` at time `now`; `available` says whether the backing store answered. */
  function Query(s: Store, token: int, now: int, available: bool): (r: Lookup)
    ensures r.Unavailable? <==> !available
    ensures r.Answer? ==> (r.found <==> token in s.entries && now <= s.entries[token])
  {
    if available then Answer(Live(s.entries, token, now)) else Unavailable
  }

  /** A change a successful `Add` or `Delete` makes to the store. */
  datatype CacheOp = Added(token: int, ttl: int, now: int) | Deleted(token: int)

  /** The store after a sequence of successful changes, in order. */
  function Apply(s: Store, ops: seq<CacheOp>): Store
    decreases |ops|
  {
    if ops == [] then s
    else
      var next := match ops[0]
        case Added(token, ttl, now) => Insert(s, token, ttl, now)
        case Deleted(token) => Remove(s, token);
      Apply(next, ops[1..])
  }

  /** No change in `ops` adds `token`. */
  predicate NeverAdds(ops: seq<CacheOp>, token: int) {
    forall i :: 0 <= i < |ops| ==> !(ops[i].Added? && ops[i].token == token)
  }

  lemma {:induction false} StaysAbsent(s: Store, ops: seq<CacheOp>, token: int)
    requires token !in s.entries && NeverAdds(ops, token)
    ensures token !in Apply(s, ops).entries
    decreases |ops|
  {
    if ops != [] {
      var next := match ops[0]
        case Added(t, ttl, now) => Insert(s, t, ttl, now)
        case Deleted(t) => Remove(s, t);
      assert NeverAdds(ops[1..], token) by {
        forall i | 0 <= i < |ops[1..]|
          ensures !(ops[1..][i].Added? && ops[1..][i].token == token)
        {
          assert ops[1..][i] == ops[i + 1];
        }
      }
      StaysAbsent(next, ops[1..], token);
    }
  }

  /**
   * Once removed, a token stays dead through any number of further
   * insertions of other tokens and removals of any token: the store-level
   * half of the anti-replay guarantee.
   */
  lemma RemovedStaysDead(s: Store, token: int, ops: seq<CacheOp>, later: int, available: bool)
    requires NeverAdds(ops, token)
    ensures !Live(Apply(Remove(s, token), ops).entries, token, later)
    ensures Query(Apply(Remove(s, token), ops), token, later, available) != Answer(true)
  {
    StaysAbsent(Remove(s, token), ops, token);
  }

  /** The shared cache object; every connection handler holds the same one. */
  class ChallengeCache {
    var entries: map<int, int>

    function State(): Store
      reads this
    {
      Store(entries)
    }

    constructor ()
      ensures State() == Store(map[])
    {
      entries := map[];
    }

    /**
     * Registers `token` with expiry `now + ttl` when the backing store
     * answers; an error leaves the cache unchanged.
     */
    method Add(token: int, ttl: int, now: int, available: bool) returns (ok: bool)
      modifies this
      ensures ok == available
      ensures State() == if ok then Insert(old(State()), token, ttl, now) else old(State())
    {
      ok := available;
      if ok {
        entries := entries[token := now + ttl];
      }
    }

    /** Reports whether `token` is live at `now`, without changing anything. */
    method Get(token: int, now: int, available: bool) returns (r: Lookup)
      ensures r == Query(State(), token, now, available)
    {
      if !available {
        return Unavailable;
      }
      r := Answer(token in entries && now <= entries[token]);
    }

    method Delete(token: int)
      modifies this
      ensures State() == Remove(old(State()), token)
    {
      entries := entries - {token};
    }
  }
}
