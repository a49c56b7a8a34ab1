/** The rate limiters: the HTTP middleware (syte/rate_limit.py) and the per-token window
    (syte/auth.py).

    Both keep a deque of admission times for every key.  Here each deque is a sequence in a map
    field, and a ghost log keeps every admission ever made, so that both can be compared with one
    naive specification that never forgets anything.  The middleware reads the clock before it
    takes its lock; since nothing is awaited while the lock is held, the lock is always free and
    one call is one atomic step.
  */
module RateLimiters {
  import opened SlidingWindow

  /** Client addresses or token ids. */
  type Key = string

  /** `defaultdict(deque)` and `setdefault(key, deque())`: an unknown key has an empty entry. */
  function Get<V>(entries: map<Key, seq<V>>, key: Key): seq<V> {
    if key in entries then entries[key] else []
  }

  ghost predicate AllRemember(deques: map<Key, seq<real>>, log: map<Key, seq<Admission>>, window: real, clock: real) {
    forall k :: Remembers(Get(deques, k), Get(log, k), window, clock)
  }

  /** No key but this one has another history or another deque. */
  ghost predicate OnlyKey<V>(key: Key, before: map<Key, seq<V>>, after: map<Key, seq<V>>) {
    forall k :: k != key ==> Get(before, k) == Get(after, k)
  }

  lemma Later(deques: map<Key, seq<real>>, log: map<Key, seq<Admission>>, window: real, clock: real, now: real)
    requires AllRemember(deques, log, window, clock) && clock <= now
    ensures AllRemember(deques, log, window, now)
  {
  }

  lemma StoreKey(deques: map<Key, seq<real>>, log: map<Key, seq<Admission>>, window: real, clock: real,
                 key: Key, deque: seq<real>, past: seq<Admission>)
    requires AllRemember(deques, log, window, clock) && Remembers(deque, past, window, clock)
    ensures AllRemember(deques[key := deque], log[key := past], window, clock)
    ensures OnlyKey(key, deques, deques[key := deque]) && OnlyKey(key, log, log[key := past])
  {
    var deques', log' := deques[key := deque], log[key := past];
    forall k: Key ensures Remembers(Get(deques', k), Get(log', k), window, clock) {
      assert Remembers(Get(deques, k), Get(log, k), window, clock);
    }
  }

  /** One call keeps every key's deque remembering its log. */
  lemma CallKeepsAll(deques: map<Key, seq<real>>, log: map<Key, seq<Admission>>, window: real, clock: real,
                     key: Key, limit: int, now: real)
    requires AllRemember(deques, log, window, clock) && clock <= now
    ensures var deque, past := Get(deques, key), Get(log, key);
      var d := Naive(past, window, limit, now);
      var left := Unexpired(deque, now - window);
      var deques', log' := deques[key := DequeAfter(deque, window, limit, now)],
        log[key := LogAfter(past, d.Admit?, limit, now)];
      && d == Verdict(left, window, limit, now)
      && AllRemember(deques', log', window, now)
      && OnlyKey(key, deques, deques') && OnlyKey(key, log, log')
  {
    var deque, past := Get(deques, key), Get(log, key);
    Later(deques, log, window, clock, now);
    assert Remembers(deque, past, window, now);
    DecidesNaively(deque, past, window, limit, now);
    StoreKey(deques, log, window, now, key, DequeAfter(deque, window, limit, now),
             LogAfter(past, Naive(past, window, limit, now).Admit?, limit, now));
  }

  /** What `_allow` does to the deque of one key. */
  method Decide(hits: seq<real>, window: real, limit: int, now: real) returns (d: Decision, deque: seq<real>)
    ensures deque == DequeAfter(hits, window, limit, now)
    ensures d == Verdict(Unexpired(hits, now - window), window, limit, now)
  {
    var cutoff := now - window;
    deque := hits;
    while deque != [] && deque[0] <= cutoff
      invariant Unexpired(deque, cutoff) == Unexpired(hits, cutoff)
    {
      deque := deque[1..];
    }
    if |deque| >= limit {
      if deque == [] {
        return IndexError, deque;
      }
      return Reject(window - (now - deque[0])), deque;
    }
    return Admit, deque + [now];
  }

  /** RateLimitMiddleware: one deque per client key, any limit on each call. */
  class Limiter {
    const window: real
    var hits: map<Key, seq<real>>
    ghost var log: map<Key, seq<Admission>>
    ghost var clock: real

    ghost predicate Valid()
      reads this
    {
      && window > 0.0
      && AllRemember(hits, log, window, clock)
    }

    constructor (seconds: real)
      requires seconds > 0.0
      ensures Valid() && log == map[] && window == seconds
    {
      window := seconds;
      hits, log, clock := map[], map[], 0.0;
    }

    /** One `_allow` call: the naive specification decides, an admission extends the key's log,
        and no other key is touched. */
    method Allow(key: Key, limit: int, now: real) returns (d: Decision)
      requires Valid() && clock <= now
      modifies this
      ensures Valid() && clock == now
      ensures d == Naive(old(Get(log, key)), window, limit, now)
      ensures Get(log, key) == old(Get(log, key)) + if d.Admit? then [Admission(now, limit)] else []
      ensures OnlyKey(key, old(log), log) && OnlyKey(key, old(hits), hits)
    {
      CallKeepsAll(hits, log, window, clock, key, limit, now);
      var deque;
      d, deque := Decide(Get(hits, key), window, limit, now);
      clock := now;
      hits, log := hits[key := deque], log[key := LogAfter(Get(log, key), d.Admit?, limit, now)];
    }
  }

  /** `_enforce_token_window`: the limit comes from the token row and is clamped to 1..1000. */
  class TokenWindows {
    var windows: map<Key, seq<real>>
    ghost var log: map<Key, seq<Admission>>
    ghost var clock: real

    ghost predicate Valid()
      reads this
    {
      AllRemember(windows, log, 60.0, clock)
    }

    constructor ()
      ensures Valid() && log == map[]
    {
      windows, log, clock := map[], map[], 0.0;
    }

    /** `rateLimit` is the stored per-minute limit; 0 stands for a missing one. */
    method Enforce(token: Key, rateLimit: int, now: real) returns (ok: bool)
      requires Valid() && clock <= now
      modifies this
      ensures Valid() && clock == now
      ensures ok <==> Naive(old(Get(log, token)), 60.0, ClampedLimit(rateLimit), now).Admit?
      ensures Get(log, token) == old(Get(log, token)) + if ok then [Admission(now, ClampedLimit(rateLimit))] else []
      ensures OnlyKey(token, old(log), log) && OnlyKey(token, old(windows), windows)
    {
      var limit := ClampedLimit(rateLimit);
      CallKeepsAll(windows, log, 60.0, clock, token, limit, now);
      var window := Get(windows, token);
      while window != [] && now - window[0] >= 60.0
        invariant unchanged(this) && Unexpired(window, now - 60.0) == Unexpired(Get(windows, token), now - 60.0)
      {
        window := window[1..];
      }
      clock := now;
      ok := |window| < limit;
      if ok {
        window := window + [now];
      }
      windows, log := windows[token := window], log[token := LogAfter(Get(log, token), ok, limit, now)];
    }
  }

  function ClampedLimit(rateLimit: int): (limit: int)
    ensures 1 <= limit <= 1000
    ensures 1 <= rateLimit <= 1000 ==> limit == rateLimit
    ensures rateLimit == 0 ==> limit == 60
    ensures rateLimit < 0 ==> limit == 1
    ensures rateLimit > 1000 ==> limit == 1000
  {
    var wanted := if rateLimit == 0 then 60 else rateLimit;
    var capped := if wanted < 1000 then wanted else 1000;
    if capped < 1 then 1 else capped
  }
}
