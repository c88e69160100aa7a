/** The in-process limiter and failure throttle (app/core/rate_limit.py), and the Redis limiter's fallback. */
module RateLimits {
  import opened Wrappers

  ghost predicate Rising(times: seq<real>) {
    forall i, j :: 0 <= i < j < |times| ==> times[i] <= times[j]
  }

  /** The events within `[from, from + window)`. */
  ghost function Within(times: seq<real>, from: real, window: real): set<nat> {
    set i: nat | i < |times| && from <= times[i] < from + window
  }

  /** Any `limit + 1` consecutive events span at least the window. */
  ghost predicate Spread(times: seq<real>, limit: nat, window: real) {
    forall i :: limit <= i < |times| ==> times[i] - times[i - limit] >= window
  }

  lemma Apart(times: seq<real>, limit: nat, window: real, i: nat, j: nat)
    requires Rising(times) && Spread(times, limit, window)
    ensures i + limit <= j < |times| ==> times[j] - times[i] >= window
  {
    if i + limit <= j < |times| {
      assert times[i + limit] - times[i + limit - limit] >= window;
    }
  }

  lemma {:induction false} Least(ids: set<nat>) returns (least: nat)
    requires ids != {}
    ensures least in ids && forall i :: i in ids ==> least <= i
    decreases ids
  {
    least :| least in ids;
    if ids != {least} {
      var rest := Least(ids - {least});
      assert forall i :: i in ids ==> i == least || i in ids - {least};
      if rest < least { least := rest; }
    }
  }

  lemma {:induction false} RangeSize(ids: set<nat>, low: nat, n: nat)
    requires forall i :: i in ids ==> low <= i < low + n
    ensures |ids| <= n
  {
    if n == 0 {
      assert ids == {};
    } else {
      RangeSize(ids - {low + n - 1}, low, n - 1);
    }
  }

  /** Events spread like that never number more than `limit` within one window length, wherever it starts. */
  lemma SpreadBound(times: seq<real>, limit: nat, window: real, from: real)
    requires limit >= 1 && Rising(times) && Spread(times, limit, window)
    ensures |Within(times, from, window)| <= limit
  {
    var ids := Within(times, from, window);
    if ids != {} {
      var first := Least(ids);
      forall i | i in ids ensures first <= i < first + limit {
        Apart(times, limit, window, first, i);
      }
      RangeSize(ids, first, limit);
    }
  }

  // ---- SlidingWindowLimiter ----

  /** How many of the times are less than a window old. */
  ghost function Recent(times: seq<real>, window: real, now: real): nat {
    if times == [] then 0
    else Recent(times[..|times| - 1], window, now) + if now - times[|times| - 1] < window then 1 else 0
  }

  /** `queue` is what is left of `all` once times a window old have been dropped from the front. */
  ghost predicate Remainder(all: seq<real>, queue: seq<real>, window: real, now: real) {
    && |queue| <= |all| && all[|all| - |queue|..] == queue
    && forall i :: 0 <= i < |all| - |queue| ==> now - all[i] >= window
  }

  ghost predicate History(all: seq<real>, limit: nat, window: real, now: real) {
    Rising(all) && Spread(all, limit, window) && forall i :: 0 <= i < |all| ==> all[i] <= now
  }

  lemma {:induction false} OldAreNotRecent(all: seq<real>, window: real, now: real)
    requires forall i :: 0 <= i < |all| ==> now - all[i] >= window
    ensures Recent(all, window, now) == 0
  {
    if all != [] { OldAreNotRecent(all[..|all| - 1], window, now); }
  }

  lemma {:induction false} RemainderIsRecent(all: seq<real>, queue: seq<real>, window: real, now: real)
    requires Remainder(all, queue, window, now)
    ensures Recent(all, window, now) <= |queue|
    ensures (forall i :: 0 <= i < |queue| ==> now - queue[i] < window) ==> Recent(all, window, now) == |queue|
    decreases |queue|
  {
    if queue == [] {
      OldAreNotRecent(all, window, now);
    } else {
      var n, m := |all|, |queue|;
      assert all[n - 1] == queue[m - 1];
      assert all[..n - 1][n - m..] == queue[..m - 1];
      RemainderIsRecent(all[..n - 1], queue[..m - 1], window, now);
    }
  }

  lemma DropFront(all: seq<real>, queue: seq<real>, window: real, now: real)
    requires Remainder(all, queue, window, now) && queue != [] && now - queue[0] >= window
    ensures Remainder(all, queue[1..], window, now)
  {
    assert queue[0] == all[|all| - |queue|];
  }

  lemma RemainderAges(all: seq<real>, queue: seq<real>, window: real, now: real, later: real)
    requires Remainder(all, queue, window, now) && now <= later
    ensures Remainder(all, queue, window, later)
  {}

  lemma AcceptSpreads(all: seq<real>, queue: seq<real>, limit: nat, window: real, now: real)
    requires History(all, limit, window, now) && Remainder(all, queue, window, now) && |queue| < limit
    ensures History(all + [now], limit, window, now) && Remainder(all + [now], queue + [now], window, now)
  {}

  function Get<K, V>(m: map<K, seq<V>>, key: K): seq<V> {
    if key in m then m[key] else []
  }

  /** One key's queue and its accepted hits. */
  ghost predicate KeyValid(all: seq<real>, queue: seq<real>, limit: nat, window: real, now: real) {
    History(all, limit, window, now) && Remainder(all, queue, window, now) && |queue| <= limit
  }

  ghost predicate AllValid<K(!new)>(accepted: map<K, seq<real>>, hits: map<K, seq<real>>, limit: nat, window: real,
                             now: real) {
    forall key :: KeyValid(Get(accepted, key), Get(hits, key), limit, window, now)
  }

  lemma Later<K(!new)>(accepted: map<K, seq<real>>, hits: map<K, seq<real>>, limit: nat, window: real, now: real,
                later: real, k: K)
    requires AllValid(accepted, hits, limit, window, now) && now <= later
    ensures AllValid(accepted, hits, limit, window, later)
    ensures KeyValid(Get(accepted, k), Get(hits, k), limit, window, later)
  {
    forall key ensures KeyValid(Get(accepted, key), Get(hits, key), limit, window, later) {
      assert KeyValid(Get(accepted, key), Get(hits, key), limit, window, now);
    }
  }

  lemma OneKeyChanged<K(!new)>(accepted: map<K, seq<real>>, hits: map<K, seq<real>>, limit: nat, window: real,
                        now: real,
                               key: K, all: seq<real>, queue: seq<real>)
    requires AllValid(accepted, hits, limit, window, now) && KeyValid(all, queue, limit, window, now)
    ensures AllValid(accepted[key := all], hits[key := queue], limit, window, now)
  {
    hide KeyValid;
    var accepted', hits' := accepted[key := all], hits[key := queue];
    forall k ensures KeyValid(Get(accepted', k), Get(hits', k), limit, window, now) {
      assert KeyValid(Get(accepted, k), Get(hits, k), limit, window, now);
    }
  }

  /** With the old hits dropped, the length of the queue decides. */
  lemma QueueDecides(all: seq<real>, queue: seq<real>, limit: nat, window: real, now: real)
    requires KeyValid(all, queue, limit, window, now)
    requires forall i :: 0 <= i < |queue| ==> now - queue[i] < window
    ensures Recent(all, window, now) == |queue|
    ensures |queue| < limit ==> KeyValid(all + [now], queue + [now], limit, window, now)
  {
    RemainderIsRecent(all, queue, window, now);
    if |queue| < limit {
      AcceptSpreads(all, queue, limit, window, now);
    }
  }

  lemma RoomMade(all: seq<real>, queue: seq<real>, limit: nat, window: real, now: real, later: real)
    requires |queue| >= limit >= 1 && KeyValid(all, queue, limit, window, now)
    requires now <= later && later - queue[0] >= window
    ensures Recent(all, window, later) < limit
  {
    RemainderAges(all, queue, window, now, later);
    DropFront(all, queue, window, later);
    RemainderIsRecent(all, queue[1..], window, later);
  }

  /** Until then there is no room. */
  ghost predicate FullUntil(all: seq<real>, limit: nat, window: real, now: real, instant: real) {
    forall t: real :: now <= t < instant ==> Recent(all, window, t) >= limit
  }

  lemma NoRoomYet(all: seq<real>, queue: seq<real>, limit: nat, window: real, now: real)
    requires |queue| >= limit >= 1 && KeyValid(all, queue, limit, window, now)
    ensures FullUntil(all, limit, window, now, queue[0] + window)
  {
    forall t: real | now <= t < queue[0] + window ensures Recent(all, window, t) >= limit {
      RemainderAges(all, queue, window, now, t);
      assert forall i :: 0 <= i < |queue| ==> queue[i] == all[|all| - |queue| + i];
      RemainderIsRecent(all, queue, window, t);
    }
  }

  class SlidingWindowLimiter<K(==, !new)> {
    const limit: nat
    const window: nat
    /** Per key, the times that still count. */
    var hits: map<K, seq<real>>

    /** Per key, every accepted hit there ever was. */
    ghost var accepted: map<K, seq<real>>

    ghost var time: real

    ghost predicate Valid()
      reads this
    {
      limit >= 1 && window >= 1 && AllValid(accepted, hits, limit, window as real, time)
    }

    constructor (limit: nat, window: nat)
      requires limit >= 1 && window >= 1
      ensures Valid() && accepted == map[] && this.limit == limit && this.window == window
    {
      this.limit, this.window, hits, accepted, time := limit, window, map[], map[], 0.0;
    }

    /** In every interval of one window length at most `limit` hits of a key were ever accepted. */
    lemma NeverMoreThanLimit(key: K, from: real)
      requires Valid()
      ensures |Within(Get(accepted, key), from, window as real)| <= limit
    {
      assert KeyValid(Get(accepted, key), Get(hits, key), limit, window as real, time);
      SpreadBound(Get(accepted, key), limit, window as real, from);
    }

    /** Drops the hits that are a window old. */
    method Prune(queue: seq<real>, now: real, ghost all: seq<real>) returns (rest: seq<real>)
      requires KeyValid(all, queue, limit, window as real, now)
      ensures KeyValid(all, rest, limit, window as real, now)
      ensures forall i :: 0 <= i < |rest| ==> now - rest[i] < window as real
    {
      rest := queue;
      while rest != [] && now - rest[0] >= window as real
        invariant KeyValid(all, rest, limit, window as real, now)
      {
        DropFront(all, rest, window as real, now);
        rest := rest[1..];
      }
      assert forall i :: 0 <= i < |rest| ==> rest[i] == all[|all| - |rest| + i];
    }

    /** `max(1, int(window - (now - q[0])) + 1)` */
    method WaitingTime(queue: seq<real>, now: real, ghost all: seq<real>) returns (seconds: int)
      requires limit >= 1 && |queue| >= limit && KeyValid(all, queue, limit, window as real, now)
      ensures seconds >= 1 && Recent(all, window as real, now + seconds as real) < limit
      ensures FullUntil(all, limit, window as real, now, now + (seconds - 1) as real)
    {
      hide KeyValid, Recent;
      NoRoomYet(all, queue, limit, window as real, now);
      var wait := (window as real - (now - queue[0])).Floor + 1;
      seconds := if wait > 1 then wait else 1;
      RoomMade(all, queue, limit, window as real, now, now + seconds as real);
    }

    /**
     A hit is accepted exactly when fewer than `limit` accepted hits are less than a window old; refused hits are not
     counted, waiting the time named makes room again, and there is none until a second before it.
     */
    method Hit(key: K, now: real) returns (retryAfter: Option<int>)
      requires Valid() && now >= time
      modifies this
      ensures Valid() && time == now
      ensures retryAfter.None? <==> Recent(Get(old(accepted), key), window as real, now) < limit
      ensures accepted == old(accepted)[key := if retryAfter.None? then Get(old(accepted), key) + [now]
        else Get(old(accepted), key)]
      ensures retryAfter.Some? ==>
        && retryAfter.value >= 1 && Recent(Get(accepted, key), window as real, now + retryAfter.value as real) < limit
        && FullUntil(Get(accepted, key), limit, window as real, now, now + (retryAfter.value - 1) as real)
    {
      hide AllValid, KeyValid, Recent;
      ghost var all := Get(accepted, key);
      Later(accepted, hits, limit, window as real, time, now, key);
      var q := Prune(Get(hits, key), now, all);
      QueueDecides(all, q, limit, window as real, now);
      if |q| >= limit {
        var seconds := WaitingTime(q, now, all);
        OneKeyChanged(accepted, hits, limit, window as real, now, key, all, q);
        hits, accepted, time := hits[key := q], accepted[key := all], now;
        return Some(seconds);
      }
      OneKeyChanged(accepted, hits, limit, window as real, now, key, all + [now], q + [now]);
      hits, accepted, time := hits[key := q + [now]], accepted[key := all + [now]], now;
      retryAfter := None;
    }
  }

  // ---- FailureThrottle ----

  datatype ThrottlePolicy = ThrottlePolicy(maxFailures: int, window: int, lockout: int)

  /** Failure `i` is the last of `maxFailures` within the window, and so locks the key. */
  ghost predicate Burst(p: ThrottlePolicy, failures: seq<real>, i: nat) {
    && i < |failures| && i + 1 >= p.maxFailures
    && (p.maxFailures >= 1 ==> failures[i] - failures[i + 1 - p.maxFailures] <= p.window as real)
  }

  ghost predicate Locked(p: ThrottlePolicy, failures: seq<real>, now: real) {
    exists i: nat :: Burst(p, failures, i) && now < failures[i] + p.lockout as real
  }

  /** The latest burst is what the lock dates from. */
  ghost predicate LastBurst(p: ThrottlePolicy, failures: seq<real>, i: nat) {
    Burst(p, failures, i) && forall j: nat :: Burst(p, failures, j) ==> j <= i
  }

  /** The stored lock is that of the latest burst, and there is none before a first burst. */
  ghost predicate LockValid(p: ThrottlePolicy, failures: seq<real>, until: Option<real>) {
    match until
    case None => forall i: nat :: !Burst(p, failures, i)
    case Some(u) => exists i: nat :: LastBurst(p, failures, i) && u == failures[i] + p.lockout as real
  }

  /** The queue is what is left of the failures once those older than the window have been dropped. */
  ghost predicate Pending(p: ThrottlePolicy, all: seq<real>, queue: seq<real>, now: real) {
    && |queue| <= |all| && all[|all| - |queue|..] == queue
    && forall i :: 0 <= i < |all| - |queue| ==> now - all[i] > p.window as real
  }

  ghost predicate FailuresUpTo(all: seq<real>, now: real) {
    Rising(all) && forall i :: 0 <= i < |all| ==> all[i] <= now
  }

  /** The pruned queue is long enough exactly when the new failure completes a burst. */
  lemma FailureCounts(p: ThrottlePolicy, all: seq<real>, q: seq<real>, now: real)
    requires p.window >= 0 && FailuresUpTo(all, now) && Pending(p, all, q, now)
    requires q != [] ==> now - q[0] <= p.window as real
    ensures |q| + 1 >= p.maxFailures <==> Burst(p, all + [now], |all|)
  {
    var more := all + [now];
    if 1 < p.maxFailures <= |more| {
      if p.maxFailures <= |q| + 1 {
        assert q[0] == all[|all| - |q|] <= more[|more| - p.maxFailures];
      }
    }
  }

  lemma PendingGrows(p: ThrottlePolicy, all: seq<real>, q: seq<real>, now: real)
    requires FailuresUpTo(all, now) && Pending(p, all, q, now)
    ensures FailuresUpTo(all + [now], now) && Pending(p, all + [now], q + [now], now)
  {}

  lemma LockAfterFailure(p: ThrottlePolicy, all: seq<real>, until: Option<real>, now: real)
    requires LockValid(p, all, until)
    ensures Burst(p, all + [now], |all|) ==> LockValid(p, all + [now], Some(now + p.lockout as real))
    ensures !Burst(p, all + [now], |all|) ==> LockValid(p, all + [now], until)
  {
    var more := all + [now];
    assert forall i: nat :: i < |all| ==> (Burst(p, more, i) <==> Burst(p, all, i));
    if Burst(p, more, |all|) {
      assert LastBurst(p, more, |all|);
    } else if until.Some? {
      var i: nat :| LastBurst(p, all, i) && until.value == all[i] + p.lockout as real;
      assert LastBurst(p, more, i);
    }
  }

  /** With failures in order, the latest burst alone decides whether the key is locked. */
  lemma LockDecides(p: ThrottlePolicy, all: seq<real>, until: Option<real>, now: real)
    requires Rising(all) && LockValid(p, all, until)
    ensures Locked(p, all, now) <==> until.Some? && now < until.value
    ensures until.Some? <==> exists i: nat :: Burst(p, all, i)
  {
    if until.Some? {
      var i: nat :| LastBurst(p, all, i) && until.value == all[i] + p.lockout as real;
      assert Burst(p, all, i);
      assert forall j: nat :: Burst(p, all, j) ==> all[j] <= all[i];
    }
  }

  function Lookup<K, V>(m: map<K, V>, key: K): Option<V> {
    if key in m then Some(m[key]) else None
  }

  /** One key's queue, its lock, and its failures since it was last cleared. */
  ghost predicate FailuresValid(p: ThrottlePolicy, all: seq<real>, queue: seq<real>, until: Option<real>, now: real) {
    FailuresUpTo(all, now) && Pending(p, all, queue, now) && LockValid(p, all, until)
  }

  ghost predicate AllFailuresValid<K(!new)>(p: ThrottlePolicy, since: map<K, seq<real>>, failures: map<K, seq<real>>,
                                            locks: map<K, real>, now: real)
  {
    forall key :: FailuresValid(p, Get(since, key), Get(failures, key), Lookup(locks, key), now)
  }

  lemma FailuresLater<K(!new)>(p: ThrottlePolicy, since: map<K, seq<real>>, failures: map<K, seq<real>>,
                               locks: map<K, real>, now: real, later: real, k: K)
    requires AllFailuresValid(p, since, failures, locks, now) && now <= later
    ensures AllFailuresValid(p, since, failures, locks, later)
    ensures FailuresValid(p, Get(since, k), Get(failures, k), Lookup(locks, k), later)
  {
    hide LockValid;
    forall key ensures FailuresValid(p, Get(since, key), Get(failures, key), Lookup(locks, key), later) {
      assert FailuresValid(p, Get(since, key), Get(failures, key), Lookup(locks, key), now);
    }
  }

  lemma OneMoreFailure(p: ThrottlePolicy, all: seq<real>, queue: seq<real>, until: Option<real>, now: real)
    requires p.window >= 0 && FailuresValid(p, all, queue, until, now)
    requires queue != [] ==> now - queue[0] <= p.window as real
    ensures FailuresValid(p, all + [now], queue + [now],
                          if |queue| + 1 >= p.maxFailures then Some(now + p.lockout as real) else until, now)
  {
    hide LockValid;
    FailureCounts(p, all, queue, now);
    PendingGrows(p, all, queue, now);
    LockAfterFailure(p, all, until, now);
  }

  lemma Cleared<K(!new)>(p: ThrottlePolicy, since: map<K, seq<real>>, failures: map<K, seq<real>>, locks: map<K, real>,
                         now: real, key: K)
    requires AllFailuresValid(p, since, failures, locks, now)
    ensures AllFailuresValid(p, since - {key}, failures - {key}, locks - {key}, now)
  {
    assert FailuresValid(p, [], [], None, now);
    hide FailuresValid;
    forall k ensures FailuresValid(p, Get(since - {key}, k), Get(failures - {key}, k), Lookup(locks - {key}, k), now) {
      assert FailuresValid(p, Get(since, k), Get(failures, k), Lookup(locks, k), now);
    }
  }

  lemma Failed<K(!new)>(p: ThrottlePolicy, since: map<K, seq<real>>, failures: map<K, seq<real>>, locks: map<K, real>,
                        now: real, key: K, all: seq<real>, queue: seq<real>, locksAfter: map<K, real>)
    requires AllFailuresValid(p, since, failures, locks, now)
    requires forall k :: k != key ==> Lookup(locksAfter, k) == Lookup(locks, k)
    requires FailuresValid(p, all, queue, Lookup(locksAfter, key), now)
    ensures AllFailuresValid(p, since[key := all], failures[key := queue], locksAfter, now)
  {
    hide FailuresValid;
    forall k ensures FailuresValid(p, Get(since[key := all], k), Get(failures[key := queue], k), Lookup(locksAfter, k),
      now) {
      assert FailuresValid(p, Get(since, k), Get(failures, k), Lookup(locks, k), now);
    }
  }

  class FailureThrottle<K(==, !new)> {
    const policy: ThrottlePolicy
    var failures: map<K, seq<real>>
    var lockedUntil: map<K, real>
    /** Per key, the failures since it was last cleared by a success or by an expired lock. */
    ghost var since: map<K, seq<real>>

    ghost var time: real

    ghost predicate Valid()
      reads this
    {
      policy.window >= 0 && AllFailuresValid(policy, since, failures, lockedUntil, time)
    }

    constructor (policy: ThrottlePolicy)
      requires policy.window >= 0
      ensures Valid() && since == map[] && this.policy == policy
    {
      this.policy, failures, lockedUntil, since, time := policy, map[], map[], map[], 0.0;
    }

    /**
     Refuses exactly while a burst of failures since the last clearing is younger than the lock-out. The time named is
     enough, and no less than a second before it would be.
     */
    method Check(key: K, now: real) returns (retryAfter: Option<int>)
      requires Valid() && now >= time
      modifies this
      ensures Valid() && time == now
      ensures retryAfter.Some? <==> Locked(policy, Get(old(since), key), now)
      ensures retryAfter.Some? ==> retryAfter.value >= 1
                                   && !Locked(policy, Get(since, key), now + retryAfter.value as real)
      ensures retryAfter.Some? ==> forall t: real :: now <= t < now + (retryAfter.value - 1) as real ==>
        Locked(policy, Get(since, key), t)
      ensures since == if retryAfter.None? && exists i: nat :: Burst(policy, Get(old(since), key), i)
                       then old(since) - {key} else old(since)
    {
      FailuresLater(policy, since, failures, lockedUntil, time, now, key);
      ghost var all, until := Get(since, key), Lookup(lockedUntil, key);
      LockDecides(policy, all, until, now);
      time, retryAfter := now, None;
      if key in lockedUntil {
        if now < lockedUntil[key] {
          var wait := (lockedUntil[key] - now).Floor + 1;
          LockDecides(policy, all, until, now + wait as real);
          forall t: real | now <= t < now + (wait - 1) as real ensures Locked(policy, all, t) {
            LockDecides(policy, all, until, t);
          }
          return Some(wait);
        }
        Cleared(policy, since, failures, lockedUntil, now, key);
        lockedUntil, failures, since := lockedUntil - {key}, failures - {key}, since - {key};
      }
    }

    /** Drops the failures that have left the window. */
    method Prune(queue: seq<real>, now: real, ghost all: seq<real>, ghost until: Option<real>) returns (rest: seq<real>)
      requires FailuresValid(policy, all, queue, until, now)
      ensures FailuresValid(policy, all, rest, until, now) && (rest != [] ==> now - rest[0] <= policy.window as real)
    {
      rest := queue;
      while rest != [] && now - rest[0] > policy.window as real
        invariant FailuresValid(policy, all, rest, until, now)
      {
        assert rest[0] == all[|all| - |rest|];
        rest := rest[1..];
      }
    }

    method RecordFailure(key: K, now: real)
      requires Valid() && now >= time
      modifies this
      ensures Valid() && time == now
      ensures since == old(since)[key := Get(old(since), key) + [now]]
    {
      hide AllFailuresValid, FailuresValid, Pending;
      FailuresLater(policy, since, failures, lockedUntil, time, now, key);
      ghost var all, until := Get(since, key), Lookup(lockedUntil, key);
      var recent := Prune(Get(failures, key), now, all, until);
      OneMoreFailure(policy, all, recent, until, now);
      var locks := if |recent| + 1 >= policy.maxFailures then lockedUntil[key := now + policy.lockout as real]
        else lockedUntil;
      Failed(policy, since, failures, lockedUntil, now, key, all + [now], recent + [now], locks);
      failures, since, time, lockedUntil := failures[key := recent + [now]], since[key := all + [now]], now, locks;
    }

    method RecordSuccess(key: K)
      requires Valid()
      modifies this
      ensures Valid() && time == old(time) && since == old(since) - {key}
    {
      Cleared(policy, since, failures, lockedUntil, time, key);
      failures, lockedUntil, since := failures - {key}, lockedUntil - {key}, since - {key};
    }
  }

  // ---- ResilientLimiter ----

  /** How the call to Redis ended. */
  datatype Primary = Accepted | Refused(retryAfter: int) | Unreachable

  class ResilientLimiter<K(==, !new)> {
    const fallback: SlidingWindowLimiter<K>
    var degraded: bool

    /** Per key, the hits that Redis let through. What went through without it, the local limiter accepted. */
    ghost var byRedis: map<K, seq<real>>

    constructor (fallback: SlidingWindowLimiter<K>)
      ensures this.fallback == fallback && !degraded && byRedis == map[]
    {
      this.fallback, degraded, byRedis := fallback, false, map[];
    }

    /** Every hit let through is one that Redis accepted or, while it was unreachable, the local limiter did. */
    method Hit(key: K, now: real, primary: Primary) returns (retryAfter: Option<int>)
      requires fallback.Valid() && now >= fallback.time
      modifies this, fallback
      ensures fallback.Valid()
      ensures degraded == (primary.Unreachable? || (primary.Refused? && old(degraded)))
      ensures retryAfter.None? <==>
        primary.Accepted?
        || (primary.Unreachable? && Recent(Get(old(fallback.accepted), key), fallback.window as real,
           now) < fallback.limit)
      ensures primary.Refused? ==> retryAfter == Some(primary.retryAfter)
      ensures byRedis == if primary.Accepted? then old(byRedis)[key := Get(old(byRedis), key) + [now]] else old(byRedis)
      ensures Get(fallback.accepted, key) == Get(old(fallback.accepted), key)
                + if primary.Unreachable? && retryAfter.None? then [now] else []
      ensures forall other :: other != key ==> Get(fallback.accepted, other) == Get(old(fallback.accepted), other)
    {
      match primary {
        case Accepted =>
          degraded, retryAfter := false, None;
          byRedis := byRedis[key := Get(byRedis, key) + [now]];
        case Refused(wait) => retryAfter := Some(wait);
        case Unreachable =>
          degraded := true;
          retryAfter := fallback.Hit(key, now);
      }
      assert Get(old(fallback.accepted), key) + [] == Get(old(fallback.accepted), key);
    }
  }
}
