/**
 Submitting one complaint to one government platform (app/services/government_service.py): the request, and the
 worker that takes two transactions with the call of the adapter in between. Workers may overlap, stop half-way, and
 be given the same job again.
 */
module Submission {
  datatype Stage = NotStarted | ConsentRequired | NotConfigured | Queued | Submitting | Submitted | Failed

  datatype Answer = Success | Unconfigured | Failure

  /** A worker before and after its call of the adapter. */
  datatype Worker = Started | Answered(a: Answer)

  /** What happened, in order: a request that found consent, and calls of the adapter. */
  datatype Event = Allowed | Called(a: Answer)

  /** `enqueued` says whether there has ever been a job; a job may be delivered again. */
  datatype State = State(stage: Stage, consent: bool, enqueued: bool, workers: map<nat, Worker>, log: seq<Event>)

  datatype Action =
    | SetConsent(granted: bool) | Request(configured: bool) | Start(w: nat) | Call(w: nat,
      a: Answer) | Finish(w: nat) | Crash(w: nat)

  ghost predicate Init(s: State) {
    s.stage.NotStarted? && !s.enqueued && s.workers == map[] && s.log == []
  }

  function StageAfter(a: Answer): Stage {
    match a case Success => Submitted case Unconfigured => NotConfigured case Failure => Failed
  }

  /** What has to be so for an action to happen. */
  ghost predicate Possible(s: State, a: Action) {
    match a
    case SetConsent(_) => true
    case Request(_) => true
    case Start(w) => s.enqueued && w !in s.workers
    case Call(w, _) => w in s.workers && s.workers[w].Started?
    case Finish(w) => w in s.workers && s.workers[w].Answered?
    case Crash(w) => w in s.workers
  }

  ghost function Outcome(s: State, a: Action): State
    requires Possible(s, a)
  {
    match a
    case SetConsent(granted) => s.(consent := granted)
    case Request(configured) =>
      if s.stage.Submitted? || s.stage.Queued? || s.stage.Submitting? then s
      else if !s.consent then s.(stage := ConsentRequired)
      else if !configured then s.(stage := NotConfigured)
      else s.(stage := Queued, enqueued := true, log := s.log + [Allowed])
    case Start(w) => if s.stage.Submitted? then s else s.(stage := Submitting, workers := s.workers[w := Started])
    case Call(w, answer) => s.(workers := s.workers[w := Answered(answer)], log := s.log + [Called(answer)])
    case Finish(w) => s.(stage := StageAfter(s.workers[w].a), workers := s.workers - {w})
    case Crash(w) => s.(workers := s.workers - {w})
  }

  ghost predicate Step(s: State, s': State, a: Action) {
    Possible(s, a) && s' == Outcome(s, a)
  }

  ghost predicate StepAt(run: seq<State>, actions: seq<Action>, i: nat)
    requires i < |actions| && |run| == |actions| + 1
  {
    Step(run[i], run[i + 1], actions[i])
  }

  ghost predicate IsRun(run: seq<State>, actions: seq<Action>) {
    && |run| == |actions| + 1 && Init(run[0])
    && forall i :: 0 <= i < |actions| ==> StepAt(run, actions, i)
  }

  lemma RunIsNonempty(run: seq<State>, actions: seq<Action>)
    requires IsRun(run, actions)
    ensures |run| == |actions| + 1
  {}

  // ---- What every run keeps ----

  /**
   The row says submitted only after the adapter has answered with success; a worker holds the answer it got; and a
   job, a worker or a call comes only after a request that found consent.
   */
  ghost predicate Honest(s: State) {
    && (s.stage.Submitted? ==> Called(Success) in s.log)
    && (forall w :: w in s.workers && s.workers[w].Answered? ==> Called(s.workers[w].a) in s.log)
    && (s.enqueued || s.workers != map[] || s.log != [] ==> s.enqueued && s.log != [] && s.log[0] == Allowed)
  }

  lemma StepIsHonest(s: State, s': State, a: Action)
    requires Honest(s) && Step(s, s', a)
    ensures Honest(s')
  {
    match a
    case Request(_) => assert s'.log == s.log || s'.log == s.log + [Allowed];
    case Call(w, answer) =>
      assert w in s.workers && s.workers != map[];
    case Finish(w) =>
      assert s.workers[w].Answered?;
    case _ =>
  }

  /** Submitted follows a success of the adapter, and every call of the adapter follows a request made with consent. */
  lemma {:induction false} EveryRunIsHonest(run: seq<State>, actions: seq<Action>, i: nat)
    requires IsRun(run, actions) && i < |run|
    ensures Honest(run[i])
    ensures run[i].stage.Submitted? ==> Called(Success) in run[i].log
    ensures forall k :: 0 <= k < |run[i].log| && run[i].log[k].Called? ==> k > 0 && run[i].log[0] == Allowed
  {
    if i > 0 {
      EveryRunIsHonest(run, actions, i - 1);
      assert StepAt(run, actions, i - 1);
      StepIsHonest(run[i - 1], run[i], actions[i - 1]);
    }
  }

  // ---- Consent at the call ----

  /** A request that finds consent and makes the job. */
  ghost predicate AllowedAt(run: seq<State>, actions: seq<Action>, j: int) {
    && 0 <= j < |actions| && |run| == |actions| + 1 && actions[j] == Request(true) && run[j].consent
    && run[j + 1].log == run[j].log + [Allowed]
  }

  ghost predicate IsLastWord(actions: seq<Action>, k: nat, i: nat) {
    k < i <= |actions| && actions[k].SetConsent? && forall l :: k < l < i ==> !actions[l].SetConsent?
  }

  /** The last word on consent from the `j`-th action on and before the `i`-th was a withdrawal. */
  ghost predicate WithdrawnSince(actions: seq<Action>, j: nat, i: nat) {
    exists k :: j <= k < i && IsLastWord(actions, k, i) && actions[k] == SetConsent(false)
  }

  lemma {:induction false} JobHasRequest(run: seq<State>, actions: seq<Action>, i: nat)
    requires IsRun(run, actions) && i < |run| && run[i].enqueued
    ensures exists j: nat :: j < i && AllowedAt(run, actions, j)
  {
    assert i > 0;
    assert StepAt(run, actions, i - 1);
    if run[i - 1].enqueued {
      JobHasRequest(run, actions, i - 1);
    } else {
      assert AllowedAt(run, actions, i - 1);
    }
  }

  lemma SameLastWord(actions: seq<Action>, j: nat, i: nat)
    requires i < |actions| && !actions[i].SetConsent?
    ensures WithdrawnSince(actions, j, i + 1) <==> WithdrawnSince(actions, j, i)
  {
    if k: nat :| j <= k < i + 1 && IsLastWord(actions, k, i + 1) && actions[k] == SetConsent(false) {
      assert IsLastWord(actions, k, i);
    }
    if k: nat :| j <= k < i && IsLastWord(actions, k, i) && actions[k] == SetConsent(false) {
      assert IsLastWord(actions, k, i + 1);
    }
  }

  /** Consent given at one state is there later exactly when its last word since is no withdrawal. */
  lemma {:induction false} ConsentKept(run: seq<State>, actions: seq<Action>, j: nat, i: nat)
    requires IsRun(run, actions) && j <= i < |run| && run[j].consent
    ensures run[i].consent <==> !WithdrawnSince(actions, j, i)
  {
    if j < i {
      ConsentKept(run, actions, j, i - 1);
      assert StepAt(run, actions, i - 1);
      if actions[i - 1].SetConsent? {
        assert IsLastWord(actions, i - 1, i);
      } else {
        SameLastWord(actions, j, i - 1);
      }
    }
  }

  /**
   Every call of the adapter follows a request that found consent, and is made with consent exactly when no
   withdrawal has been the last word since such a request.
   */
  lemma CallHasConsentExactlyWhen(run: seq<State>, actions: seq<Action>, i: nat)
    requires IsRun(run, actions) && i < |actions| && actions[i].Call?
    ensures exists j: nat :: j < i && AllowedAt(run, actions, j)
    ensures forall j: nat :: j < i && AllowedAt(run, actions, j) ==>
      (run[i].consent <==> !WithdrawnSince(actions, j, i))
  {
    hide WithdrawnSince;
    EveryRunIsHonest(run, actions, i);
    assert StepAt(run, actions, i);
    assert actions[i].w in run[i].workers;
    JobHasRequest(run, actions, i);
    forall j: nat | j < i && AllowedAt(run, actions, j) ensures run[i].consent <==> !WithdrawnSince(actions, j, i) {
      ConsentKept(run, actions, j, i);
    }
  }

  /** A call that sends the complaint: an adapter that is not configured sends nothing. */
  predicate Sends(a: Action) {
    a.Call? && !a.a.Unconfigured?
  }

  /** What the documentation promises: without consent nothing leaves the system. */
  ghost predicate NothingLeavesWithoutConsent(run: seq<State>, actions: seq<Action>)
    requires |run| == |actions| + 1
  {
    forall i :: 0 <= i < |actions| && Sends(actions[i]) ==> run[i].consent
  }

  /** Nothing is sent while a withdrawal is the last word since a request that found consent. */
  ghost predicate NothingSentAfterWithdrawal(run: seq<State>, actions: seq<Action>)
    requires |run| == |actions| + 1
  {
    forall i, j: nat :: 0 <= i < |actions| && Sends(actions[i]) && j < i && AllowedAt(run, actions, j) ==>
      !WithdrawnSince(actions, j, i)
  }

  /** The promise holds of a run exactly when nothing is sent after a withdrawal that stands. */
  lemma PromiseHoldsExactlyWhen(run: seq<State>, actions: seq<Action>)
    requires IsRun(run, actions)
    ensures NothingLeavesWithoutConsent(run, actions) <==> NothingSentAfterWithdrawal(run, actions)
  {
    hide WithdrawnSince, IsRun, AllowedAt;
    RunIsNonempty(run, actions);
    forall i: nat | i < |actions| && actions[i].Call?
      ensures run[i].consent <==> forall j: nat :: j < i && AllowedAt(run, actions, j) ==>
        !WithdrawnSince(actions, j, i) {
      CallHasConsentExactlyWhen(run, actions, i);
    }
  }

  // ---- At most one success, when workers do not overlap or stop ----

  ghost function Successes(log: seq<Event>): nat {
    if log == [] then 0 else Successes(log[..|log| - 1]) + if log[|log| - 1] == Called(Success) then 1 else 0
  }

  ghost predicate AtMostOne(workers: map<nat, Worker>) {
    forall v, w :: v in workers && w in workers ==> v == w
  }

  ghost predicate Orderly(run: seq<State>, actions: seq<Action>) {
    && (forall i :: 0 <= i < |run| ==> AtMostOne(run[i].workers))
    && (forall i :: 0 <= i < |actions| ==> !actions[i].Crash?)
  }

  /** With one worker at a time the row and the log go together. */
  ghost predicate InStep(s: State) {
    if s.workers == map[] then
      Successes(s.log) == if s.stage.Submitted? then 1 else 0
    else
      && s.stage.Submitting?
      && forall w :: w in s.workers ==> Successes(s.log) == if s.workers[w] == Answered(Success) then 1 else 0
  }

  lemma SuccessesAfter(log: seq<Event>, e: Event)
    ensures Successes(log + [e]) == Successes(log) + if e == Called(Success) then 1 else 0
  {
    assert (log + [e])[..|log|] == log;
  }

  lemma OnlyWorker(workers: map<nat, Worker>, w: nat)
    requires AtMostOne(workers) && w in workers
    ensures workers == map[w := workers[w]] && workers - {w} == map[]
  {
    assert forall v :: v in workers ==> v == w;
  }

  lemma StepInStep(s: State, s': State, a: Action)
    requires InStep(s) && Step(s, s', a) && !a.Crash? && AtMostOne(s.workers) && AtMostOne(s'.workers)
    ensures InStep(s')
  {
    match a
    case SetConsent(_) =>
    case Request(_) => SuccessesAfter(s.log, Allowed);
    case Start(w) =>
      if !s.stage.Submitted? { OnlyWorker(s'.workers, w); }
    case Call(w, answer) =>
      OnlyWorker(s.workers, w);
      OnlyWorker(s'.workers, w);
      SuccessesAfter(s.log, Called(answer));
    case Finish(w) => OnlyWorker(s.workers, w);
  }

  /** Then the platform accepts the complaint at most once, and submitted is final. */
  lemma {:induction false} SubmittedOnce(run: seq<State>, actions: seq<Action>, i: nat)
    requires IsRun(run, actions) && Orderly(run, actions) && i < |run|
    ensures InStep(run[i]) && Successes(run[i].log) <= 1
    ensures i > 0 && run[i - 1].stage.Submitted? ==> run[i].stage.Submitted?
  {
    if i > 0 {
      SubmittedOnce(run, actions, i - 1);
      assert StepAt(run, actions, i - 1);
      StepInStep(run[i - 1], run[i], actions[i - 1]);
    }
    if run[i].workers != map[] {
      var w :| w in run[i].workers;
    }
  }

  // ---- Neither condition can be dropped ----

  /** A run goes on with one more step. */
  lemma Then(run: seq<State>, actions: seq<Action>, s: State, a: Action)
    requires IsRun(run, actions) && Step(run[|run| - 1], s, a)
    ensures IsRun(run + [s], actions + [a])
  {
    hide Step, Init;
    var longer, all := run + [s], actions + [a];
    forall i | 0 <= i < |all| ensures StepAt(longer, all, i) {
      assert i < |actions| ==> StepAt(run, actions, i);
    }
  }

  /** A request with consent, a worker that has taken the row, and a success of the adapter. */
  lemma OneAnswered() returns (run: seq<State>, actions: seq<Action>)
    ensures IsRun(run, actions) && actions == [Request(true), Start(0), Call(0, Success)]
    ensures run[|run| - 1] == State(Submitting, true, true, map[0 := Answered(Success)], [Allowed, Called(Success)])
    ensures forall i :: 0 <= i < |run| ==> AtMostOne(run[i].workers)
  {
    var s0 := State(NotStarted, true, false, map[], []);
    var s1 := State(Queued, true, true, map[], [Allowed]);
    var s2 := State(Submitting, true, true, map[0 := Started], [Allowed]);
    var s3 := State(Submitting, true, true, map[0 := Answered(Success)], [Allowed, Called(Success)]);
    assert s0.log + [Allowed] == s1.log && s1.log + [Called(Success)] == s3.log;
    Then([s0], [], s1, Request(true));
    Then([s0] + [s1], [] + [Request(true)], s2, Start(0));
    Then([s0] + [s1] + [s2], [] + [Request(true)] + [Start(0)], s3, Call(0, Success));
    run, actions := [s0] + [s1] + [s2] + [s3], [] + [Request(true)] + [Start(0)] + [Call(0, Success)];
  }

  lemma FirstState(s: State)
    requires Init(s)
    ensures IsRun([s], [])
  {}

  /** Consent is withdrawn while the job waits, and the complaint is sent all the same. */
  lemma SentAfterWithdrawal() returns (run: seq<State>, actions: seq<Action>)
    ensures IsRun(run, actions) && actions == [Request(true), SetConsent(false), Start(0), Call(0, Success), Finish(0)]
    ensures run[5].stage.Submitted? && !run[5].consent && !NothingLeavesWithoutConsent(run, actions)
  {
    hide IsRun;
    var s0 := State(NotStarted, true, false, map[], []);
    var s1 := State(Queued, true, true, map[], [Allowed]);
    var s2 := s1.(consent := false);
    var s3 := s2.(stage := Submitting, workers := map[0 := Started]);
    var s4 := s3.(workers := map[0 := Answered(Success)], log := [Allowed, Called(Success)]);
    var s5 := s4.(stage := Submitted, workers := map[]);
    assert s0.log + [Allowed] == s1.log && s3.log + [Called(Success)] == s4.log && s4.workers - {0} == s5.workers;
    FirstState(s0);
    Then([s0], [], s1, Request(true));
    Then([s0] + [s1], [] + [Request(true)], s2, SetConsent(false));
    Then([s0] + [s1] + [s2], [] + [Request(true)] + [SetConsent(false)], s3, Start(0));
    run, actions := [s0] + [s1] + [s2] + [s3], [] + [Request(true)] + [SetConsent(false)] + [Start(0)];
    Then(run, actions, s4, Call(0, Success));
    run, actions := run + [s4], actions + [Call(0, Success)];
    Then(run, actions, s5, Finish(0));
    run, actions := run + [s5], actions + [Finish(0)];
    assert actions[3].Call? && !run[3].consent;
  }

  lemma TwoCalls(second: Answer)
    ensures Successes([Allowed, Called(Success), Called(second)]) == if second.Success? then 2 else 1
  {
    SuccessesAfter([], Allowed);
    SuccessesAfter([Allowed], Called(Success));
    SuccessesAfter([Allowed, Called(Success)], Called(second));
    assert [] + [Allowed] == [Allowed] && [Allowed] + [Called(Success)] == [Allowed, Called(Success)];
    assert [Allowed, Called(Success)] + [Called(second)] == [Allowed, Called(Success), Called(second)];
  }

  /** Two overlapping workers can both succeed, and when the second fails it takes the submitted row back to failed. */
  lemma OverlapSendsTwice(second: Answer) returns (run: seq<State>, actions: seq<Action>, i: nat)
    ensures IsRun(run, actions) && forall a :: a in actions ==> !a.Crash?
    ensures Successes(run[|run| - 1].log) == if second.Success? then 2 else 1
    ensures i < |run| && run[i].stage.Submitted? && run[|run| - 1].stage == StageAfter(second)
  {
    hide IsRun, Successes;
    run, actions := OneAnswered();
    var s4 := State(Submitting, true, true, map[0 := Answered(Success), 1 := Started], [Allowed, Called(Success)]);
    var s5 := State(Submitted, true, true, map[1 := Started], [Allowed, Called(Success)]);
    var s6 := State(Submitted, true, true, map[1 := Answered(second)], [Allowed, Called(Success), Called(second)]);
    var s7 := State(StageAfter(second), true, true, map[], [Allowed, Called(Success), Called(second)]);
    RunIsNonempty(run, actions);
    Then(run, actions, s4, Start(1));
    run, actions := run + [s4], actions + [Start(1)];
    assert s4.workers - {0} == s5.workers;
    Then(run, actions, s5, Finish(0));
    run, actions, i := run + [s5], actions + [Finish(0)], |run|;
    assert s5.log + [Called(second)] == s6.log;
    Then(run, actions, s6, Call(1, second));
    run, actions := run + [s6], actions + [Call(1, second)];
    assert s6.workers - {1} == s7.workers;
    Then(run, actions, s7, Finish(1));
    run, actions := run + [s7], actions + [Finish(1)];
    TwoCalls(second);
  }

  /** A worker that stops between its call and its second transaction is enough as well. */
  lemma CrashSendsTwice() returns (run: seq<State>, actions: seq<Action>)
    ensures IsRun(run, actions) && forall i :: 0 <= i < |run| ==> AtMostOne(run[i].workers)
    ensures Successes(run[|run| - 1].log) == 2
  {
    hide IsRun, Successes;
    run, actions := OneAnswered();
    var s4 := State(Submitting, true, true, map[], [Allowed, Called(Success)]);
    var s5 := State(Submitting, true, true, map[0 := Started], [Allowed, Called(Success)]);
    var s6 := State(Submitting, true, true, map[0 := Answered(Success)], [Allowed, Called(Success), Called(Success)]);
    RunIsNonempty(run, actions);
    assert run[|run| - 1].workers - {0} == s4.workers;
    Then(run, actions, s4, Crash(0));
    run, actions := run + [s4], actions + [Crash(0)];
    Then(run, actions, s5, Start(0));
    run, actions := run + [s5], actions + [Start(0)];
    assert s5.log + [Called(Success)] == s6.log;
    Then(run, actions, s6, Call(0, Success));
    run, actions := run + [s6], actions + [Call(0, Success)];
    TwoCalls(Success);
  }
}
