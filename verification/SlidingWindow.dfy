/** Sliding windows: admissions, the naive specification that the rate limiters implement, and what one
    deque has to remember of a history for that. */
module SlidingWindow {
  datatype Admission = Admission(at: real, limit: int)

  datatype Decision = Admit | Reject(retryAfter: real) | IndexError

  /** Admissions in the half-open interval (lo, hi]. */
  function Count(log: seq<Admission>, lo: real, hi: real): nat {
    if log == [] then 0
    else Count(log[..|log| - 1], lo, hi) + if lo < log[|log| - 1].at <= hi then 1 else 0
  }

  ghost predicate UpTo(log: seq<Admission>, now: real) {
    forall i :: 0 <= i < |log| ==> log[i].at <= now
  }

  /** Every admission came no earlier than those before it, and found fewer than its own limit in
      the window that ended with it. */
  ghost predicate Lawful(log: seq<Admission>, window: real) {
    log == [] ||
    var earlier, last := log[..|log| - 1], log[|log| - 1];
    && Lawful(earlier, window)
    && UpTo(earlier, last.at)
    && Count(earlier, last.at - window, last.at) < last.limit
  }

  /** Where the window (lo, _] starts: the admissions of a lawful log at or before `lo`. */
  function Before(log: seq<Admission>, lo: real): (k: nat)
    ensures k <= |log|
    ensures k > 0 ==> log[k - 1].at <= lo
    ensures forall i :: k <= i < |log| ==> lo < log[i].at
  {
    if log == [] then 0
    else if log[|log| - 1].at <= lo then |log|
    else Before(log[..|log| - 1], lo)
  }

  /** The naive specification: admit exactly when fewer than `limit` of all past admissions lie in
      the window that ends now. */
  ghost function Naive(log: seq<Admission>, window: real, limit: int, now: real): Decision {
    var k := Before(log, now - window);
    if Count(log, now - window, now) < limit then Admit
    else if k == |log| then IndexError
    else Reject(log[k].at + window - now)
  }

  /** In a lawful log the admissions of a window that ends now form a suffix. */
  lemma {:induction false} CountIsSuffix(log: seq<Admission>, window: real, lo: real, hi: real)
    requires Lawful(log, window) && UpTo(log, hi)
    ensures Count(log, lo, hi) == |log| - Before(log, lo)
    ensures forall i :: 0 <= i < Before(log, lo) ==> log[i].at <= lo
  {
    if log != [] {
      CountIsSuffix(log[..|log| - 1], window, lo, hi);
      if log[|log| - 1].at <= lo {
        NothingCounted(log[..|log| - 1], lo, hi);
      }
    }
  }

  lemma {:induction false} NothingCounted(log: seq<Admission>, lo: real, hi: real)
    requires UpTo(log, lo)
    ensures Count(log, lo, hi) == 0
  {
    if log != [] {
      NothingCounted(log[..|log| - 1], lo, hi);
    }
  }

  /** Shrinking the interval never finds more admissions. */
  lemma {:induction false} CountMonotone(log: seq<Admission>, lo: real, hi: real, lo': real, hi': real)
    requires lo' <= lo && hi <= hi'
    ensures Count(log, lo, hi) <= Count(log, lo', hi')
  {
    if log != [] {
      CountMonotone(log[..|log| - 1], lo, hi, lo', hi');
    }
  }

  /** Until t no more of the earlier admissions come into the window than the last one found in its own. */
  lemma EarlierAreFew(earlier: seq<Admission>, last: Admission, window: real, t: real)
    requires Lawful(earlier, window) && UpTo(earlier, last.at) && last.at <= t
    requires Count(earlier, last.at - window, last.at) < last.limit
    ensures Count(earlier, t - window, t) < last.limit
  {
    CountIsSuffix(earlier, window, last.at - window, last.at);
    CountIsSuffix(earlier, window, last.at - window, t);
    CountMonotone(earlier, t - window, t, last.at - window, t);
  }

  /** The window theorem, over the whole history of a key: every interval (t - window, t] holds at
      most as many admissions as the limit that the last admission in it was given.  Calls with
      different limits may be mixed freely on one key. */
  lemma {:induction false} WindowBound(log: seq<Admission>, window: real, t: real)
    requires Lawful(log, window) && Count(log, t - window, t) > 0
    ensures var m := Before(log, t);
      m > 0 && t - window < log[m - 1].at && Count(log, t - window, t) <= log[m - 1].limit
  {
    var earlier, last := log[..|log| - 1], log[|log| - 1];
    if t < last.at {
      WindowBound(earlier, window, t);
    } else if last.at <= t - window {
      NothingCounted(earlier, t - window, t);
    } else {
      EarlierAreFew(earlier, last, window, t);
    }
  }

  /** With one limit per key a rejected caller is told exactly when to come back: with nothing
      admitted in between, every earlier retry is rejected and a retry at that instant is let in. */
  lemma {:induction false} RetryAfterIsExact(log: seq<Admission>, window: real, limit: int, now: real, later: real)
    requires Lawful(log, window) && UpTo(log, now) && now <= later && window > 0.0
    requires forall i :: 0 <= i < |log| ==> log[i].limit == limit
    requires Naive(log, window, limit, now).Reject?
    ensures var retry := Naive(log, window, limit, now).retryAfter;
      && 0.0 < retry <= window
      && UpTo(log, later)
      && (later < now + retry ==> Naive(log, window, limit, later).Reject?)
      && (later == now + retry ==> Naive(log, window, limit, later).Admit?)
  {
    var k := Before(log, now - window);
    var retry := Naive(log, window, limit, now).retryAfter;
    CountIsSuffix(log, window, now - window, now);
    CountIsSuffix(log, window, later - window, later);
    WindowBound(log, window, now);
    if later == now + retry {
      assert later - window == log[k].at;
    }
  }

  /** When page and API limits share a key the advice can be too early.  It is right if and only if
      fewer than `limit` admissions are strictly younger than the oldest one in the window. */
  lemma {:induction false} RetryAfterRightIff(log: seq<Admission>, window: real, limit: int, now: real)
    requires Lawful(log, window) && UpTo(log, now) && window > 0.0
    requires Naive(log, window, limit, now).Reject?
    ensures var oldest := log[Before(log, now - window)].at;
      var later := now + Naive(log, window, limit, now).retryAfter;
      && UpTo(log, later)
      && (Naive(log, window, limit, later).Admit? <==> Count(log, oldest, now) < limit)
  {
    var oldest := log[Before(log, now - window)].at;
    var later := now + Naive(log, window, limit, now).retryAfter;
    assert later - window == oldest;
    CountIsSuffix(log, window, oldest, now);
    CountIsSuffix(log, window, oldest, later);
  }

  lemma Extend(log: seq<Admission>, a: Admission, window: real)
    requires Lawful(log, window) && UpTo(log, a.at) && Count(log, a.at - window, a.at) < a.limit
    ensures Lawful(log + [a], window)
    ensures forall lo, hi :: Count(log + [a], lo, hi) == Count(log, lo, hi) + if lo < a.at <= hi then 1 else 0
    ensures forall lo :: Before(log + [a], lo) == if a.at <= lo then |log| + 1 else Before(log, lo)
  {
    assert (log + [a])[..|log|] == log;
  }

  /** Two API calls followed by a page call with limit 1: the advised retry is rejected again. */
  lemma MixedLimitsBreakRetryAfter()
    ensures var log := [Admission(0.0, 2400), Admission(1.0, 2400)];
      && Lawful(log, 60.0)
      && Naive(log, 60.0, 1, 1.0) == Reject(59.0)
      && Naive(log, 60.0, 1, 60.0).Reject?
  {
    var log := [Admission(0.0, 2400), Admission(1.0, 2400)];
    Extend([], Admission(0.0, 2400), 60.0);
    assert [] + [Admission(0.0, 2400)] == [Admission(0.0, 2400)];
    Extend([Admission(0.0, 2400)], Admission(1.0, 2400), 60.0);
    assert log == [Admission(0.0, 2400)] + [Admission(1.0, 2400)];
  }

  /** What one deque remembers of its key's log: a suffix of it, and whatever was forgotten has left
      every window that can still be asked about. */
  ghost predicate Remembers(deque: seq<real>, log: seq<Admission>, window: real, clock: real) {
    var k := |log| - |deque|;
    && k >= 0
    && Lawful(log, window)
    && UpTo(log, clock)
    && (forall i {:trigger deque[i]} :: 0 <= i < |deque| ==> deque[i] == log[k + i].at)
    && (forall i :: 0 <= i < k ==> log[i].at <= clock - window)
  }

  /** The deque without the expired times at its front. */
  function Unexpired(deque: seq<real>, cutoff: real): seq<real> {
    if deque != [] && deque[0] <= cutoff then Unexpired(deque[1..], cutoff) else deque
  }

  /** What is left when no expired time is at the front is exactly the naive window. */
  lemma EvictedIsWindow(deque: seq<real>, log: seq<Admission>, window: real, now: real)
    requires Remembers(deque, log, window, now)
    requires deque != [] ==> now - window < deque[0]
    ensures |deque| == Count(log, now - window, now)
    ensures |log| - |deque| == Before(log, now - window)
  {
    CountIsSuffix(log, window, now - window, now);
    var k := |log| - |deque|;
    assert deque != [] ==> deque[0] == log[k + 0].at;
    if k > 0 {
      assert log[k - 1].at <= now - window;
    }
  }

  /** Evicting forgets nothing that can still be asked about, and leaves exactly the naive window. */
  lemma {:induction false} EvictionRemembers(deque: seq<real>, log: seq<Admission>, window: real, now: real)
    requires Remembers(deque, log, window, now)
    ensures var left := Unexpired(deque, now - window);
      && Remembers(left, log, window, now)
      && |left| == Count(log, now - window, now) && |log| - |left| == Before(log, now - window)
  {
    if deque != [] && deque[0] <= now - window {
      PopRemembers(deque, log, window, now);
      EvictionRemembers(deque[1..], log, window, now);
    } else {
      EvictedIsWindow(deque, log, window, now);
    }
  }

  lemma PopRemembers(deque: seq<real>, log: seq<Admission>, window: real, now: real)
    requires Remembers(deque, log, window, now) && deque != [] && deque[0] <= now - window
    ensures Remembers(deque[1..], log, window, now)
  {
    var k := |log| - |deque|;
    assert deque[0] == log[k + 0].at;
  }

  lemma AdmitRemembers(deque: seq<real>, log: seq<Admission>, window: real, now: real, limit: int)
    requires Remembers(deque, log, window, now) && Naive(log, window, limit, now).Admit?
    ensures Remembers(deque + [now], log + [Admission(now, limit)], window, now)
  {
    assert (log + [Admission(now, limit)])[..|log|] == log;
  }

  /** One key's deque and log after one call at `now`. */
  function DequeAfter(deque: seq<real>, window: real, limit: int, now: real): seq<real> {
    var left := Unexpired(deque, now - window);
    if |left| < limit then left + [now] else left
  }

  function LogAfter(log: seq<Admission>, admitted: bool, limit: int, now: real): seq<Admission> {
    if admitted then log + [Admission(now, limit)] else log
  }

  /** What `_allow` answers when this is left in the deque. */
  function Verdict(left: seq<real>, window: real, limit: int, now: real): Decision {
    if |left| < limit then Admit else if left == [] then IndexError else Reject(window - (now - left[0]))
  }

  /** What is left in the deque decides as the naive specification does. */
  lemma DecidesNaively(deque: seq<real>, log: seq<Admission>, window: real, limit: int, now: real)
    requires Remembers(deque, log, window, now)
    ensures var left := Unexpired(deque, now - window);
      Naive(log, window, limit, now)
      == Verdict(left, window, limit, now)
    ensures Remembers(DequeAfter(deque, window, limit, now),
                      LogAfter(log, Naive(log, window, limit, now).Admit?, limit, now), window, now)
  {
    var left := Unexpired(deque, now - window);
    EvictionRemembers(deque, log, window, now);
    if |left| < limit {
      AdmitRemembers(left, log, window, now, limit);
    } else if left != [] {
      assert left[0] == log[(|log| - |left|) + 0].at;
    }
  }
}
