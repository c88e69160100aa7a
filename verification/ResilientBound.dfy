/** What the Redis limiter and the local ones that stand in for it let through together (app/core/redis_limits.py). */
module ResilientBound {
  import opened Arithmetic
  import opened RateLimits
  import RedisWindow

  /** Each of the times is that of a different hit that Redis let through. */
  ghost predicate AreAmong(times: seq<real>, admitted: seq<RedisWindow.Ticket>, places: seq<nat>) {
    && |places| == |times|
    && (forall i :: 0 <= i < |times| ==> places[i] < |admitted| && admitted[places[i]].at == times[i])
    && (forall i, j :: 0 <= i < j < |places| ==> places[i] != places[j])
  }

  lemma {:induction false} InjectiveSize(ids: set<nat>, places: seq<nat>, into: set<nat>)
    requires forall i :: i in ids ==> i < |places| && places[i] in into
    requires forall i, j :: 0 <= i < j < |places| ==> places[i] != places[j]
    ensures |ids| <= |into|
    decreases ids
  {
    if ids != {} {
      var i :| i in ids;
      InjectiveSize(ids - {i}, places, into - {places[i]});
    }
  }

  /** One process: in any half-open interval of one window at most three times the limit less one gets through. */
  lemma OneProcess<K(!new)>(limiter: ResilientLimiter<K>, key: K, c: RedisWindow.Config, run: seq<RedisWindow.State>,
                            places: seq<nat>, from: real)
    requires limiter.fallback.Valid() && c.window == limiter.fallback.window as real
      && c.limit == limiter.fallback.limit
    requires RedisWindow.IsRun(c, run)
    requires AreAmong(Get(limiter.byRedis, key), RedisWindow.Last(run).admitted, places)
    ensures |Within(Get(limiter.byRedis, key), from, c.window)| + |Within(Get(limiter.fallback.accepted, key), from,
      c.window)|
         <= 3 * c.limit - 1
  {
    RedisWindow.AtMostTwiceTheLimit(c, run, from);
    limiter.fallback.NeverMoreThanLimit(key, from);
    InjectiveSize(Within(Get(limiter.byRedis, key), from, c.window), places,
                  RedisWindow.Within(c, RedisWindow.Last(run), from));
  }

  // ---- Many processes ----

  /** What the local limiters of all the processes accepted within one window. */
  ghost function Locally(accepted: seq<seq<real>>, from: real, window: real): nat {
    if accepted == [] then 0
    else Locally(accepted[..|accepted| - 1], from, window) + |Within(accepted[|accepted| - 1], from, window)|
  }

  ghost predicate AllSpread(accepted: seq<seq<real>>, limit: nat, window: real) {
    forall i :: 0 <= i < |accepted| ==> Rising(accepted[i]) && Spread(accepted[i], limit, window)
  }

  lemma {:induction false} LocallyBounded(accepted: seq<seq<real>>, limit: nat, window: real, from: real)
    requires limit >= 1 && AllSpread(accepted, limit, window)
    ensures Locally(accepted, from, window) <= |accepted| * limit
  {
    if accepted != [] {
      var n := |accepted| - 1;
      LocallyBounded(accepted[..n], limit, window, from);
      SpreadBound(accepted[n], limit, window, from);
      assert |accepted| * limit == n * limit + limit;
    }
  }

  /** All the processes together: twice the limit less one by Redis, and the limit once more for each of them. */
  lemma AllProcesses(c: RedisWindow.Config, run: seq<RedisWindow.State>, accepted: seq<seq<real>>, from: real)
    requires c.limit >= 1 && RedisWindow.IsRun(c, run) && AllSpread(accepted, c.limit, c.window)
    ensures |RedisWindow.Within(c, RedisWindow.Last(run), from)| + Locally(accepted, from, c.window)
         <= 2 * c.limit - 1 + |accepted| * c.limit
  {
    RedisWindow.AtMostTwiceTheLimit(c, run, from);
    LocallyBounded(accepted, c.limit, c.window, from);
  }

  lemma FullWindow(limit: nat, window: real, at: real)
    requires limit >= 1 && window > 0.0
    ensures var times := seq(limit, i => at);
            Rising(times) && Spread(times, limit, window) && |Within(times, at, window)| == limit
  {
    var times := seq(limit, i => at);
    RedisWindow.AllOf(Within(times, at, window), limit);
  }

  lemma {:induction false} LocallyFull(processes: nat, limit: nat, window: real, at: real)
    returns (accepted: seq<seq<real>>)
    requires limit >= 1 && window > 0.0
    ensures |accepted| == processes && AllSpread(accepted, limit, window)
    ensures Locally(accepted, at, window) == processes * limit
  {
    accepted := [];
    if processes > 0 {
      var before := LocallyFull(processes - 1, limit, window, at);
      FullWindow(limit, window, at);
      accepted := before + [seq(limit, i => at)];
      assert accepted[..|before|] == before;
      assert processes * limit == (processes - 1) * limit + limit;
    }
  }

  /** For any number of processes that bound is reached. */
  lemma AllProcessesReached(c: RedisWindow.Config, processes: nat)
    requires c.limit >= 1 && c.window > 0.0
    ensures exists run, accepted: seq<seq<real>>, from ::
      && RedisWindow.IsRun(c, run) && |accepted| == processes && AllSpread(accepted, c.limit, c.window)
      && |RedisWindow.Within(c, RedisWindow.Last(run), from)| + Locally(accepted, from, c.window)
         == 2 * c.limit - 1 + processes * c.limit
  {
    RedisWindow.BoundIsReached(c);
    var run, from :| RedisWindow.IsRun(c, run)
      && |RedisWindow.Within(c, RedisWindow.Last(run), from)| == 2 * c.limit - 1;
    var accepted := LocallyFull(processes, c.limit, c.window, from);
    assert |RedisWindow.Within(c, RedisWindow.Last(run), from)| + Locally(accepted, from, c.window)
        == 2 * c.limit - 1 + processes * c.limit;
  }
}
