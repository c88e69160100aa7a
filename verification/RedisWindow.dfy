/**
 The fixed-window limiter shared through Redis (`RedisFixedWindowLimiter.hit`, app/core/redis_limits.py):
 any number of processes interleave INCR, TTL and EXPIRE on one key, and any of them may crash in between.
 */
module RedisWindow {
  import opened Wrappers
  import opened Arithmetic

  /** `livesAtDeadline`: whether the server still serves a key at the very instant it expires. */
  datatype Config = Config(limit: int, window: real, livesAtDeadline: bool)

  /** The counter, and when it expires if an expiry has been set. */
  datatype Counter = Counter(count: nat, deadline: Option<real>)

  /**
   What one INCR got: the counter value, when, and which incarnation of the key it was. A hit is dated
   by its INCR, the atomic step at which it takes its place in the count.
   */
  datatype Ticket = Ticket(epoch: nat, n: nat, at: real)

  /** Where a process stands inside `hit`: behind INCR, about to call EXPIRE, or about to compare. */
  datatype Process = Counted(t: Ticket) | Arming(t: Ticket) | Judging(t: Ticket)

  /** The server: the time, the key, and the history of when the key was created. */
  datatype Store = Store(now: real, key: Option<Counter>, starts: seq<real>)

  /** `admitted` is the history of the hits let through. */
  datatype State = State(store: Store, procs: map<nat, Process>, admitted: seq<Ticket>)

  ghost predicate Init(s: State) {
    s.store.key == None && s.store.starts == [] && s.procs == map[] && s.admitted == []
  }

  ghost predicate Expired(c: Config, key: Option<Counter>, now: real) {
    && key.Some? && key.value.deadline.Some?
    && if c.livesAtDeadline then key.value.deadline.value < now else key.value.deadline.value <= now
  }

  /** Time passes, and with it the key may expire. */
  ghost function Later(c: Config, r: Store, now: real): Store {
    r.(now := now, key := if Expired(c, r.key, now) then None else r.key)
  }

  /** INCR: creates the key without an expiry if it is absent. */
  ghost function Incremented(r: Store): Store {
    match r.key
    case None => r.(key := Some(Counter(1, None)), starts := r.starts + [r.now])
    case Some(k) => r.(key := Some(k.(count := k.count + 1)))
  }

  /** EXPIRE: does nothing to an absent key, and deletes the key if the time given is not positive. */
  ghost function Armed(c: Config, r: Store): Store {
    if r.key.None? || c.window <= 0.0 then r.(key := None)
    else r.(key := Some(r.key.value.(deadline := Some(r.now + c.window))))
  }

  ghost predicate NeverExpires(r: Store) {
    r.key.None? || r.key.value.deadline.None?
  }

  datatype Action = Tick(now: real) | Incr(p: nat) | Check(p: nat) | Expire(p: nat) | Decide(p: nat) | Crash(p: nat)

  ghost predicate Step(c: Config, s: State, s': State, a: Action) {
    match a
    case Tick(now) => now >= s.store.now && s' == s.(store := Later(c, s.store, now))
    case Incr(p) =>
      && p !in s.procs
      && var r := Incremented(s.store);
         |r.starts| > 0
         && s' == s.(store := r, procs := s.procs[p := Counted(Ticket(|r.starts| - 1, r.key.value.count, r.now))])
    case Check(p) =>
      // `n == 1 or ttl(k) < 0`: TTL is negative for an absent key and for one without expiry
      && p in s.procs && s.procs[p].Counted?
      && var t := s.procs[p].t;
         s' == s.(procs := s.procs[p := if t.n == 1 || NeverExpires(s.store) then Arming(t) else Judging(t)])
    case Expire(p) =>
      && p in s.procs && s.procs[p].Arming?
      && s' == s.(store := Armed(c, s.store), procs := s.procs[p := Judging(s.procs[p].t)])
    case Decide(p) =>
      // the hit is refused if its count was over the limit, and let through otherwise
      && p in s.procs && s.procs[p].Judging?
      && var t := s.procs[p].t;
         s' == s.(procs := s.procs - {p}, admitted := if t.n > c.limit then s.admitted else s.admitted + [t])
    case Crash(p) => p in s.procs && s' == s.(procs := s.procs - {p})
  }

  ghost predicate Next(c: Config, s: State, s': State) {
    exists a :: Step(c, s, s', a)
  }

  ghost predicate IsRun(c: Config, run: seq<State>) {
    && run != [] && Init(run[0])
    && forall i :: 0 <= i < |run| - 1 ==> Next(c, run[i], run[i + 1])
  }

  // ---- What every step keeps ----

  /** One window after the other, and later still if the server serves a key at its deadline. */
  ghost predicate Past(c: Config, a: real, b: real) {
    if c.livesAtDeadline then a + c.window < b else a + c.window <= b
  }

  /** Incarnations of the key start at least one window apart, and the present one lasts at least as long. */
  ghost predicate Spaced(c: Config, r: Store) {
    && (forall i :: 0 <= i < |r.starts| ==> r.starts[i] <= r.now)
    && (forall i, j :: 0 <= i < j < |r.starts| ==> Past(c, r.starts[i], r.starts[j]))
    && match r.key
       case None => r.starts == [] || Past(c, r.starts[|r.starts| - 1], r.now)
       case Some(k) =>
         && r.starts != [] && k.count >= 1 && !Expired(c, r.key, r.now)
         && (k.deadline.Some? ==> r.starts[|r.starts| - 1] + c.window <= k.deadline.value)
  }

  /** A ticket was drawn while its incarnation of the key lived; the first one drawn is what created it. */
  ghost predicate Drawn(r: Store, t: Ticket) {
    && 1 <= t.n && t.epoch < |r.starts| && r.starts[t.epoch] <= t.at <= r.now
    && (forall e :: t.epoch < e < |r.starts| ==> t.at < r.starts[e])
    && (r.key.None? ==> t.at < r.now)
    && (t.n == 1 ==> t.at == r.starts[t.epoch])
    && (t.epoch == |r.starts| - 1 && r.key.Some? ==> t.n <= r.key.value.count)
  }

  ghost predicate Same(t: Ticket, u: Ticket) {
    t.epoch == u.epoch && t.n == u.n
  }

  /** No two hits ever got the same count from the same incarnation of the key. */
  ghost predicate TicketsUnique(procs: map<nat, Process>, admitted: seq<Ticket>) {
    && (forall p, q :: p in procs && q in procs && p != q ==> !Same(procs[p].t, procs[q].t))
    && (forall p, i :: p in procs && 0 <= i < |admitted| ==> !Same(procs[p].t, admitted[i]))
    && (forall i, j :: 0 <= i < j < |admitted| ==> !Same(admitted[i], admitted[j]))
  }

  ghost predicate AllDrawn(c: Config, r: Store, procs: map<nat, Process>, admitted: seq<Ticket>) {
    && (forall p :: p in procs ==> Drawn(r, procs[p].t))
    && (forall i :: 0 <= i < |admitted| ==> Drawn(r, admitted[i]) && admitted[i].n <= c.limit)
  }

  ghost predicate Inv(c: Config, s: State) {
    Spaced(c, s.store) && AllDrawn(c, s.store, s.procs, s.admitted) && TicketsUnique(s.procs, s.admitted)
  }

  /** If the changed key still accounts for every ticket, the tickets stay as good as they were. */
  lemma DrawnCarries(c: Config, s: State, r: Store)
    requires AllDrawn(c, s.store, s.procs, s.admitted)
    requires forall u: Ticket :: Drawn(s.store, u) ==> Drawn(r, u)
    ensures AllDrawn(c, r, s.procs, s.admitted)
  {}

  lemma TimeCarries(c: Config, r: Store, now: real)
    requires c.window > 0.0 && Spaced(c, r) && now >= r.now
    ensures Spaced(c, Later(c, r, now)) && forall u: Ticket :: Drawn(r, u) ==> Drawn(Later(c, r, now), u)
  {}

  lemma ArmCarries(c: Config, r: Store)
    requires c.window > 0.0 && Spaced(c, r)
    ensures Spaced(c, Armed(c, r)) && forall u: Ticket :: Drawn(r, u) ==> Drawn(Armed(c, r), u)
  {}

  lemma Create(c: Config, r: Store)
    requires c.window > 0.0 && Spaced(c, r) && r.key.None?
    ensures var r', t := Incremented(r), Ticket(|r.starts|, 1, r.now);
            && Spaced(c, r') && Drawn(r', t)
            && forall u: Ticket :: Drawn(r, u) ==> Drawn(r', u) && !Same(t, u)
  {
    var r', t := Incremented(r), Ticket(|r.starts|, 1, r.now);
    assert r'.starts[..|r.starts|] == r.starts;
    forall u: Ticket | Drawn(r, u) ensures Drawn(r', u) && !Same(t, u) {}
  }

  lemma Increment(c: Config, r: Store)
    requires Spaced(c, r) && r.key.Some?
    ensures r.starts != []
    ensures var r', t := Incremented(r), Ticket(|r.starts| - 1, r.key.value.count + 1, r.now);
            && Spaced(c, r') && Drawn(r', t)
            && forall u: Ticket :: Drawn(r, u) ==> Drawn(r', u) && !Same(t, u)
  {
    var r', t := Incremented(r), Ticket(|r.starts| - 1, r.key.value.count + 1, r.now);
    forall u: Ticket | Drawn(r, u) ensures Drawn(r', u) && !Same(t, u) {}
  }

  lemma Distinguish(procs: map<nat, Process>, admitted: seq<Ticket>, p: nat, q: Process)
    requires TicketsUnique(procs, admitted) && p !in procs
    requires forall o :: o in procs ==> !Same(q.t, procs[o].t)
    requires forall i :: 0 <= i < |admitted| ==> !Same(q.t, admitted[i])
    ensures TicketsUnique(procs[p := q], admitted)
  {}

  lemma NewTicket(c: Config, s: State, r: Store, p: nat, q: Process)
    requires AllDrawn(c, s.store, s.procs, s.admitted) && TicketsUnique(s.procs, s.admitted)
    requires p !in s.procs && Drawn(r, q.t)
    requires forall u: Ticket :: Drawn(s.store, u) ==> Drawn(r, u) && !Same(q.t, u)
    ensures AllDrawn(c, r, s.procs[p := q], s.admitted) && TicketsUnique(s.procs[p := q], s.admitted)
  {
    hide Drawn, Same;
    assert forall o :: o in s.procs ==> Drawn(s.store, s.procs[o].t);
    Distinguish(s.procs, s.admitted, p, q);
  }

  lemma Retag(c: Config, r: Store, procs: map<nat, Process>, admitted: seq<Ticket>, p: nat, q: Process)
    requires AllDrawn(c, r, procs, admitted) && TicketsUnique(procs, admitted)
    requires p in procs && q.t == procs[p].t
    ensures AllDrawn(c, r, procs[p := q], admitted) && TicketsUnique(procs[p := q], admitted)
  {
    hide Drawn, Same;
    assert forall o :: o in procs ==> procs[p := q][o].t == procs[o].t;
  }

  /** A process leaves: its hit was let through, or refused, or it crashed. */
  lemma Leave(c: Config, r: Store, procs: map<nat, Process>, admitted: seq<Ticket>, p: nat)
    requires AllDrawn(c, r, procs, admitted) && TicketsUnique(procs, admitted) && p in procs
    ensures AllDrawn(c, r, procs - {p}, admitted) && TicketsUnique(procs - {p}, admitted)
    ensures procs[p].t.n <= c.limit ==>
      AllDrawn(c, r, procs - {p}, admitted + [procs[p].t]) && TicketsUnique(procs - {p}, admitted + [procs[p].t])
  {
    hide Drawn;
  }

  lemma StepKeepsInv(c: Config, s: State, s': State, a: Action)
    requires c.window > 0.0 && Inv(c, s) && Step(c, s, s', a)
    ensures Inv(c, s')
  {
    hide Spaced, AllDrawn, TicketsUnique, Drawn;
    match a
    case Tick(now) =>
      TimeCarries(c, s.store, now);
      DrawnCarries(c, s, s'.store);
    case Incr(p) =>
      if s.store.key.None? { Create(c, s.store); } else { Increment(c, s.store); }
      NewTicket(c, s, s'.store, p, s'.procs[p]);
    case Check(p) => Retag(c, s.store, s.procs, s.admitted, p, s'.procs[p]);
    case Expire(p) =>
      ArmCarries(c, s.store);
      DrawnCarries(c, s, s'.store);
      Retag(c, s'.store, s.procs, s.admitted, p, s'.procs[p]);
    case Decide(p) => Leave(c, s.store, s.procs, s.admitted, p);
    case Crash(p) => Leave(c, s.store, s.procs, s.admitted, p);
  }

  lemma {:induction false} RunKeepsInv(c: Config, run: seq<State>)
    requires c.window > 0.0 && IsRun(c, run)
    ensures Inv(c, run[|run| - 1])
  {
    var n := |run|;
    if n > 1 {
      RunKeepsInv(c, run[..n - 1]);
      assert Next(c, run[n - 2], run[n - 1]);
      var a :| Step(c, run[n - 2], run[n - 1], a);
      StepKeepsInv(c, run[n - 2], run[n - 1], a);
    }
  }

  // ---- The bound ----

  /** The hits let through that are dated within `[from, from + window)`. */
  ghost function Within(c: Config, s: State, from: real): set<nat> {
    set i: nat | i < |s.admitted| && from <= s.admitted[i].at < from + c.window
  }

  /** As `Within`, with the end of the interval included. */
  ghost function WithinClosed(c: Config, s: State, from: real): set<nat> {
    set i: nat | i < |s.admitted| && from <= s.admitted[i].at <= from + c.window
  }

  ghost function Counts(epoch: nat, low: int, high: int): set<(nat, int)>
    decreases high - low
  {
    if low > high then {} else {(epoch, low)} + Counts(epoch, low + 1, high)
  }

  lemma {:induction false} CountsSize(epoch: nat, low: int, high: int)
    ensures |Counts(epoch, low, high)| == if low > high then 0 else high - low + 1
    ensures forall x :: x in Counts(epoch, low, high) <==> x.0 == epoch && low <= x.1 <= high
    decreases high - low
  {
    if low <= high {
      CountsSize(epoch, low + 1, high);
    }
  }

  /** A set whose members carry distinct tags from another is no larger. */
  lemma {:induction false} InjectiveBound(ids: set<nat>, s: seq<Ticket>, tags: set<(nat, int)>)
    requires forall i :: i in ids ==> i < |s| && (s[i].epoch, s[i].n) in tags
    requires forall i, j :: i in ids && j in ids && i != j ==> !Same(s[i], s[j])
    ensures |ids| <= |tags|
    decreases ids
  {
    if ids != {} {
      var i :| i in ids;
      InjectiveBound(ids - {i}, s, tags - {(s[i].epoch, s[i].n)});
    }
  }

  lemma Apart(c: Config, r: Store, i: nat, j: nat)
    requires Spaced(c, r)
    ensures i < j < |r.starts| ==> Past(c, r.starts[i], r.starts[j])
  {}

  /** Hits of one interval come from at most two incarnations, and the second did not start before it. */
  lemma TwoEpochs(c: Config, r: Store, t: Ticket, u: Ticket, from: real)
    requires c.window > 0.0 && Spaced(c, r) && Drawn(r, t) && Drawn(r, u)
    requires from <= t.at && u.at <= from + c.window && t.epoch <= u.epoch
    ensures u.epoch <= t.epoch + 1
    ensures u.epoch == t.epoch + 1 && (c.livesAtDeadline || u.at < from + c.window) ==> t.n > 1
  {
    Apart(c, r, t.epoch + 1, u.epoch);
    Apart(c, r, t.epoch, u.epoch);
  }

  lemma NeverSame(s: State, ids: set<nat>)
    requires TicketsUnique(s.procs, s.admitted) && forall i :: i in ids ==> i < |s.admitted|
    ensures forall i, j :: i in ids && j in ids && i != j ==> !Same(s.admitted[i], s.admitted[j])
  {}

  lemma UnionSize<T>(a: set<T>, b: set<T>)
    ensures |a + b| <= |a| + |b|
  {
    assert a + b == a + (b - a);
    assert b == (b - a) + (a * b);
  }

  lemma Positive(r: Store, t: Ticket)
    requires Drawn(r, t)
    ensures t.n >= 1
  {}

  lemma TagBound(c: Config, s: State, ids: set<nat>, e: nat, low: nat)
    requires (low == 1 || low == 2) && AllDrawn(c, s.store, s.procs, s.admitted) && TicketsUnique(s.procs, s.admitted)
    requires forall j :: j in ids ==> j < |s.admitted|
    requires forall j :: j in ids ==>
      s.admitted[j].epoch == e + 1 || (s.admitted[j].epoch == e && s.admitted[j].n >= low)
    ensures |ids| <= Max(0, c.limit) + Max(0, c.limit + 1 - low)
  {
    hide TicketsUnique, Drawn;
    var early, late := Counts(e, low, c.limit), Counts(e + 1, 1, c.limit);
    CountsSize(e, low, c.limit);
    CountsSize(e + 1, 1, c.limit);
    forall j | j in ids ensures (s.admitted[j].epoch, s.admitted[j].n) in early + late {
      assert Drawn(s.store, s.admitted[j]);
      Positive(s.store, s.admitted[j]);
    }
    UnionSize(early, late);
    NeverSame(s, ids);
    InjectiveBound(ids, s.admitted, early + late);
  }

  lemma OneEpochBound(c: Config, s: State, ids: set<nat>, e: nat)
    requires AllDrawn(c, s.store, s.procs, s.admitted) && TicketsUnique(s.procs, s.admitted)
    requires forall j :: j in ids ==> j < |s.admitted| && s.admitted[j].epoch == e
    ensures |ids| <= Max(0, c.limit)
  {
    CountsSize(e, 1, c.limit);
    forall j | j in ids ensures (s.admitted[j].epoch, s.admitted[j].n) in Counts(e, 1, c.limit) {
      assert Drawn(s.store, s.admitted[j]);
    }
    InjectiveBound(ids, s.admitted, Counts(e, 1, c.limit));
  }

  /** A hit from the earliest incarnation of the key among a nonempty set of hits. */
  lemma First(s: State, ids: set<nat>) returns (first: nat)
    requires ids != {} && forall i :: i in ids ==> i < |s.admitted|
    ensures first in ids && forall i :: i in ids ==> s.admitted[first].epoch <= s.admitted[i].epoch
    decreases ids
  {
    first :| first in ids;
    if ids != {first} {
      var rest := First(s, ids - {first});
      if s.admitted[rest].epoch < s.admitted[first].epoch { first := rest; }
    }
  }

  /** Where a life of the key cannot begin at the end of the interval, the two lives share less than twice the limit. */
  lemma TightBound(c: Config, s: State, ids: set<nat>, from: real)
    requires c.window > 0.0 && Inv(c, s) && ids <= WithinClosed(c, s, from)
    requires c.livesAtDeadline || forall i :: i in ids ==> s.admitted[i].at < from + c.window
    ensures |ids| <= Max(0, 2 * c.limit - 1)
  {
    hide Spaced, Drawn;
    if ids != {} {
      var first := First(s, ids);
      var e := s.admitted[first].epoch;
      if k :| k in ids && s.admitted[k].epoch == e + 1 {
        forall j | j in ids
          ensures s.admitted[j].epoch == e || s.admitted[j].epoch == e + 1
          ensures s.admitted[j].epoch == e ==> s.admitted[j].n > 1
        {
          TwoEpochs(c, s.store, s.admitted[first], s.admitted[j], from);
          if s.admitted[j].epoch == e { TwoEpochs(c, s.store, s.admitted[j], s.admitted[k], from); }
        }
        TagBound(c, s, ids, e, 2);
      } else {
        forall j | j in ids ensures s.admitted[j].epoch == e {
          TwoEpochs(c, s.store, s.admitted[first], s.admitted[j], from);
        }
        OneEpochBound(c, s, ids, e);
      }
    }
  }

  /**
   In every run, in every half-open interval of one window length, at most `2 * limit - 1` hits are let
   through: two incarnations of the key can share the interval only if the first was created before it.
   */
  lemma AtMostTwiceTheLimit(c: Config, run: seq<State>, from: real)
    requires IsRun(c, run)
    ensures |Within(c, run[|run| - 1], from)| <= Max(0, 2 * c.limit - 1)
  {
    var s := run[|run| - 1];
    if c.window > 0.0 {
      RunKeepsInv(c, run);
      TightBound(c, s, Within(c, s, from), from);
    } else {
      assert Within(c, s, from) == {};
    }
  }

  /** With both ends of the interval included the documented bound of twice the limit holds. */
  lemma AtMostTwiceTheLimitClosed(c: Config, run: seq<State>, from: real)
    requires IsRun(c, run) && c.window > 0.0
    ensures |WithinClosed(c, run[|run| - 1], from)| <= Max(0, 2 * c.limit)
  {
    var s := run[|run| - 1];
    var ids := WithinClosed(c, s, from);
    RunKeepsInv(c, run);
    hide Spaced, Drawn;
    if ids != {} {
      var first := First(s, ids);
      forall j | j in ids
        ensures s.admitted[j].epoch == s.admitted[first].epoch || s.admitted[j].epoch == s.admitted[first].epoch + 1
        ensures s.admitted[j].n >= 1
      {
        TwoEpochs(c, s.store, s.admitted[first], s.admitted[j], from);
        assert Drawn(s.store, s.admitted[j]);
        Positive(s.store, s.admitted[j]);
      }
      TagBound(c, s, ids, s.admitted[first].epoch, 1);
    }
  }

  // ---- The bound is exact ----

  ghost function Last(run: seq<State>): State
    requires run != []
  {
    run[|run| - 1]
  }

  lemma Extend(c: Config, run: seq<State>, s: State, a: Action)
    requires IsRun(c, run) && Step(c, Last(run), s, a)
    ensures IsRun(c, run + [s])
  {
    var longer := run + [s];
    forall i | 0 <= i < |longer| - 1 ensures Next(c, longer[i], longer[i + 1]) {
      if i == |run| - 1 {
        assert Step(c, longer[i], longer[i + 1], a);
      } else {
        assert Next(c, run[i], run[i + 1]);
      }
    }
  }

  /** No process is inside `hit`, and the key has counted `n` hits and expires at `deadline`. */
  ghost predicate Quiet(s: State, n: nat, deadline: real) {
    && s.procs == map[] && s.store.starts != [] && n >= 1
    && s.store.key == Some(Counter(n, Some(deadline)))
  }

  /** A hit by a process that is not disturbed, on a key that already has its expiry. */
  lemma Hit(c: Config, run: seq<State>, n: nat, deadline: real) returns (longer: seq<State>)
    requires IsRun(c, run) && Quiet(Last(run), n, deadline) && n < c.limit
    ensures IsRun(c, longer) && Quiet(Last(longer), n + 1, deadline)
    ensures Last(longer).store.now == Last(run).store.now
    ensures exists t: Ticket :: t.at == Last(run).store.now && Last(longer).admitted == Last(run).admitted + [t]
  {
    var s := Last(run);
    var r := Incremented(s.store);
    var t := Ticket(|r.starts| - 1, n + 1, r.now);
    var s1 := State(r, s.procs[0 := Counted(t)], s.admitted);
    var s2 := State(r, s1.procs[0 := Judging(t)], s.admitted);
    var s3 := State(r, s2.procs - {0}, s.admitted + [t]);
    Extend(c, run, s1, Incr(0));
    Extend(c, run + [s1], s2, Check(0));
    Extend(c, run + [s1] + [s2], s3, Decide(0));
    longer := run + [s1] + [s2] + [s3];
  }

  /** The hit that creates the key and sets its expiry. */
  lemma FirstHit(c: Config, run: seq<State>) returns (longer: seq<State>)
    requires c.window > 0.0 && c.limit >= 1
    requires IsRun(c, run) && Last(run).procs == map[] && Last(run).store.key == None
    ensures IsRun(c, longer) && Quiet(Last(longer), 1, Last(run).store.now + c.window)
    ensures Last(longer).store.now == Last(run).store.now
    ensures exists t: Ticket :: t.at == Last(run).store.now && Last(longer).admitted == Last(run).admitted + [t]
  {
    var s := Last(run);
    var r := Incremented(s.store);
    var t := Ticket(|r.starts| - 1, 1, r.now);
    var s1 := State(r, s.procs[0 := Counted(t)], s.admitted);
    var s2 := State(r, s1.procs[0 := Arming(t)], s.admitted);
    var s3 := State(Armed(c, r), s2.procs[0 := Judging(t)], s.admitted);
    var s4 := State(s3.store, s3.procs - {0}, s.admitted + [t]);
    Extend(c, run, s1, Incr(0));
    Extend(c, run + [s1], s2, Check(0));
    Extend(c, run + [s1] + [s2], s3, Expire(0));
    Extend(c, run + [s1] + [s2] + [s3], s4, Decide(0));
    longer := run + [s1] + [s2] + [s3] + [s4];
  }

  lemma {:induction false} Hits(c: Config, run: seq<State>, n: nat, deadline: real) returns (longer: seq<State>)
    requires IsRun(c, run) && Quiet(Last(run), n, deadline) && n <= c.limit
    ensures IsRun(c, longer) && Quiet(Last(longer), c.limit, deadline)
    ensures Last(longer).store.now == Last(run).store.now
    ensures Last(run).admitted <= Last(longer).admitted
    ensures |Last(longer).admitted| == |Last(run).admitted| + c.limit - n
    ensures forall i :: |Last(run).admitted| <= i < |Last(longer).admitted| ==>
      Last(longer).admitted[i].at == Last(run).store.now
    decreases c.limit - n
  {
    if n == c.limit {
      longer := run;
    } else {
      var one := Hit(c, run, n, deadline);
      longer := Hits(c, one, n + 1, deadline);
      assert Last(longer).admitted[|Last(run).admitted|] == Last(one).admitted[|Last(run).admitted|];
    }
  }

  lemma {:induction false} AllButFirst(ids: set<nat>, n: nat)
    requires n >= 1 && forall i: nat :: i in ids <==> 1 <= i < n
    ensures |ids| == n - 1
  {
    if n > 1 {
      AllButFirst(ids - {n - 1}, n - 1);
    }
  }

  /** For every limit and window there is a run, even without crashes, that reaches the bound. */
  lemma BoundIsReached(c: Config)
    requires c.limit >= 1 && c.window > 0.0
    ensures exists run, from :: IsRun(c, run) && |Within(c, Last(run), from)| == 2 * c.limit - 1
  {
    var w := c.window;
    var start := State(Store(0.0, None, []), map[], []);
    var r1 := FirstHit(c, [start]);
    var half := Last(r1).(store := Later(c, Last(r1).store, w / 2.0));
    Extend(c, r1, half, Tick(w / 2.0));
    var r2 := Hits(c, r1 + [half], 1, w);
    var gone := Last(r2).(store := Later(c, Last(r2).store, w + w / 4.0));
    Extend(c, r2, gone, Tick(w + w / 4.0));
    var r3 := FirstHit(c, r2 + [gone]);
    var r4 := Hits(c, r3, 1, w + w / 4.0 + w);
    var s := Last(r4);
    assert |s.admitted| == 2 * c.limit;
    forall i | 0 <= i < |s.admitted|
      ensures s.admitted[i].at == if i == 0 then 0.0 else if i < c.limit then w / 2.0 else w + w / 4.0
    {
      if i < c.limit {
        assert s.admitted[i] == Last(r2).admitted[i];
      } else if i == c.limit {
        assert s.admitted[i] == Last(r3).admitted[i];
      }
    }
    AllButFirst(Within(c, s, w / 2.0), 2 * c.limit);
    assert IsRun(c, r4) && |Within(c, Last(r4), w / 2.0)| == 2 * c.limit - 1;
  }

  lemma {:induction false} AllOf(ids: set<nat>, n: nat)
    requires forall i: nat :: i in ids <==> i < n
    ensures |ids| == n
  {
    if n > 0 { AllOf(ids - {n - 1}, n - 1); }
  }

  /**
   With both ends included twice the limit is reached exactly when the server drops a key at its deadline: then a
   next life of the key begins just as the interval ends.
   */
  lemma ClosedBoundIsReached(c: Config)
    requires c.limit >= 1 && c.window > 0.0
    ensures (exists run, from :: IsRun(c, run) && |WithinClosed(c, Last(run), from)| == 2 * c.limit)
      <==> !c.livesAtDeadline
  {
    if c.livesAtDeadline {
      forall run, from | IsRun(c, run) ensures |WithinClosed(c, Last(run), from)| <= 2 * c.limit - 1 {
        RunKeepsInv(c, run);
        TightBound(c, Last(run), WithinClosed(c, Last(run), from), from);
      }
    } else {
      var w := c.window;
      var start := State(Store(0.0, None, []), map[], []);
      var r1 := FirstHit(c, [start]);
      var r2 := Hits(c, r1, 1, w);
      var gone := Last(r2).(store := Later(c, Last(r2).store, w));
      Extend(c, r2, gone, Tick(w));
      var r3 := FirstHit(c, r2 + [gone]);
      var r4 := Hits(c, r3, 1, w + w);
      var s := Last(r4);
      forall i | 0 <= i < |s.admitted| ensures s.admitted[i].at == if i < c.limit then 0.0 else w {
        if i < c.limit {
          assert s.admitted[i] == Last(r2).admitted[i];
        } else if i == c.limit {
          assert s.admitted[i] == Last(r3).admitted[i];
        }
      }
      AllOf(WithinClosed(c, s, 0.0), 2 * c.limit);
      assert IsRun(c, r4) && |WithinClosed(c, Last(r4), 0.0)| == 2 * c.limit;
    }
  }
}
