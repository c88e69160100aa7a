/**
 Which schedules of requests and workers send a complaint at most once whatever the adapter answers
 (app/services/government_service.py). An attempt that is not possible when its turn comes does nothing.
 */
module Schedules {
  import opened Submission

  /** The attempt, with the answer the adapter gives if it comes to a call; the one written in it does not count. */
  function Answering(a: Action, x: Answer): Action {
    if a.Call? then Call(a.w, x) else a
  }

  ghost function Attempted(s: State, a: Action): State {
    if Possible(s, a) then Outcome(s, a) else s
  }

  /** What a schedule comes to, as far as there are answers. */
  ghost function After(start: State, schedule: seq<Action>, answers: seq<Answer>): State
    requires |answers| <= |schedule|
  {
    if answers == [] then start
    else
      var n := |answers| - 1;
      Attempted(After(start, schedule, answers[..n]), Answering(schedule[n], answers[n]))
  }

  lemma AfterOneMore(start: State, schedule: seq<Action>, answers: seq<Answer>, x: Answer)
    requires |answers| < |schedule|
    ensures After(start, schedule, answers + [x])
         == Attempted(After(start, schedule, answers), Answering(schedule[|answers|], x))
  {
    assert (answers + [x])[..|answers|] == answers;
  }

  /** Leaving out the attempts that did nothing, that is a run. */
  lemma {:induction false} AfterIsARun(start: State, schedule: seq<Action>, answers: seq<Answer>)
    returns (run: seq<State>, actions: seq<Action>)
    requires Init(start) && |answers| <= |schedule|
    ensures IsRun(run, actions) && |run| == |actions| + 1 && run[|run| - 1] == After(start, schedule, answers)
  {
    hide Init, IsRun;
    if answers == [] {
      FirstState(start);
      run, actions := [start], [];
    } else {
      var n := |answers| - 1;
      run, actions := AfterIsARun(start, schedule, answers[..n]);
      var act, next := Answering(schedule[n], answers[n]), After(start, schedule, answers);
      if Possible(run[|run| - 1], act) {
        Then(run, actions, next, act);
        run, actions := run + [next], actions + [act];
      }
    }
  }

  // ---- The condition ----

  /**
   The schedule with an adapter that always fails, so that every worker gets its turn. `barred` are the workers that
   started before the worker of the latest call had finished; `open` says that it has not; `ok` that none of the
   barred has called.
   */
  datatype Watch = Watch(s: State, caller: nat, open: bool, barred: set<nat>, ok: bool)

  ghost function Watched(v: Watch, a: Action): Watch {
    var next := Attempted(v.s, Answering(a, Failure));
    if !Possible(v.s, a) then v
    else match a
      case Start(w) => v.(s := next, barred := if v.open then v.barred + {w} else v.barred - {w})
      case Call(w, _) => Watch(next, w, true, v.s.workers.Keys - {w}, v.ok && w !in v.barred)
      case Finish(w) => v.(s := next, open := v.open && w != v.caller)
      case _ => v.(s := next)
  }

  ghost function Watching(start: State, schedule: seq<Action>): Watch {
    if schedule == [] then Watch(start, 0, false, {}, true)
    else Watched(Watching(start, schedule[..|schedule| - 1]), schedule[|schedule| - 1])
  }

  /** The worker of each call has finished before the worker of the next one starts. */
  ghost predicate Separated(start: State, schedule: seq<Action>) {
    Watching(start, schedule).ok
  }

  /** Nobody but the latest caller has an answer to finish with, and while it is at work all others are barred. */
  ghost predicate WatchOk(v: Watch) {
    && !v.s.stage.Submitted? && Successes(v.s.log) == 0
    && (forall x :: x in v.s.workers && v.s.workers[x].Answered? ==> v.s.workers[x] == Answered(Failure))
    && (v.ok ==> forall x :: x in v.s.workers && v.s.workers[x].Answered? ==> v.open && x == v.caller)
    && (v.ok && v.open ==> forall x :: x in v.s.workers && v.s.workers[x].Started? ==> x in v.barred)
  }

  lemma LogAfter(s: State, act: Action, x: Answer)
    ensures var next := Attempted(s, Answering(act, x)).log;
            Successes(next) == Successes(s.log) + if act.Call? && Possible(s, act) && x.Success? then 1 else 0
  {
    SuccessesAfter(s.log, Allowed);
    SuccessesAfter(s.log, Called(x));
  }

  lemma WatchStep(v: Watch, a: Action)
    requires WatchOk(v)
    ensures WatchOk(Watched(v, a))
    ensures Watched(v, a).ok ==> v.ok
  {
    hide Successes;
    LogAfter(v.s, a, Failure);
  }

  // ---- The same run up to the answers ----

  predicate SameStage(a: Stage, b: Stage) {
    a == b || ((a.NotConfigured? || a.Failed?) && (b.NotConfigured? || b.Failed?))
  }

  /** The workers differ at most in their answers. */
  ghost predicate AlikeWorkers(a: map<nat, Worker>, b: map<nat, Worker>) {
    a.Keys == b.Keys && forall x :: x in a ==> (a[x].Started? <==> b[x].Started?)
  }

  lemma AlikeWorkersChange(a: map<nat, Worker>, b: map<nat, Worker>, w: nat, x: Worker, y: Worker)
    requires AlikeWorkers(a, b)
    ensures AlikeWorkers(a - {w}, b - {w})
    ensures (x.Started? <==> y.Started?) ==> AlikeWorkers(a[w := x], b[w := y])
  {}

  /** The states differ at most in what was answered. */
  ghost predicate Alike(a: State, b: State) {
    && a.consent == b.consent && a.enqueued == b.enqueued && SameStage(a.stage, b.stage) && !a.stage.Submitted?
    && AlikeWorkers(a.workers, b.workers)
  }

  lemma AlikePossible(a: State, b: State, act: Action)
    requires AlikeWorkers(a.workers, b.workers) && a.enqueued == b.enqueued
    ensures Possible(a, act) <==> Possible(b, act)
  {}

  /** Possible in one exactly if in the other, and alike afterwards, unless a success is brought home. */
  lemma AlikeStep(a: State, b: State, act: Action, x: Answer)
    requires Alike(a, b) && !b.stage.Submitted?
    requires forall w :: w in b.workers && b.workers[w].Answered? ==> b.workers[w] == Answered(Failure)
    requires act.Finish? && act.w in a.workers ==> a.workers[act.w] != Answered(Success)
    ensures Possible(a, act) <==> Possible(b, act)
    ensures Alike(Attempted(a, Answering(act, x)), Attempted(b, Answering(act, Failure)))
  {
    AlikePossible(a, b, act);
    hide AlikeWorkers;
    match act
    case Start(w) => AlikeWorkersChange(a.workers, b.workers, w, Started, Started);
    case Call(w, _) => AlikeWorkersChange(a.workers, b.workers, w, Answered(x), Answered(Failure));
    case Finish(w) => AlikeWorkersChange(a.workers, b.workers, w, Started, Started);
    case Crash(w) => AlikeWorkersChange(a.workers, b.workers, w, Started, Started);
    case _ =>
  }

  // ---- A separated schedule succeeds at most once ----

  /** No success yet. */
  ghost predicate NoneYet(a: State, v: Watch) {
    && Alike(a, v.s) && Successes(a.log) == 0
    && forall x :: x in a.workers ==> a.workers[x] != Answered(Success)
  }

  /** The latest call succeeded, and its worker has not finished. */
  ghost predicate UnderWay(a: State, v: Watch) {
    && Alike(a, v.s) && Successes(a.log) == 1 && v.open
    && forall x :: x in a.workers && a.workers[x].Answered? ==> x == v.caller && a.workers[x] == Answered(Success)
  }

  /** The success is recorded; who is still there may not call. */
  ghost predicate Recorded(a: State, v: Watch) {
    && a.stage.Submitted? && Successes(a.log) == 1
    && forall x :: x in a.workers ==>
         a.workers[x].Started? && x in v.s.workers && v.s.workers[x].Started? && x in v.barred
  }

  ghost predicate AtMostOneSoFar(a: State, v: Watch) {
    v.ok ==> NoneYet(a, v) || UnderWay(a, v) || Recorded(a, v)
  }

  lemma StepFromNone(a: State, v: Watch, act: Action, x: Answer)
    requires WatchOk(v) && v.ok && NoneYet(a, v)
    ensures AtMostOneSoFar(Attempted(a, Answering(act, x)), Watched(v, act))
  {
    hide Successes;
    AlikeStep(a, v.s, act, x);
    LogAfter(a, act, x);
  }

  lemma StepUnderWay(a: State, v: Watch, act: Action, x: Answer)
    requires WatchOk(v) && v.ok && UnderWay(a, v)
    ensures AtMostOneSoFar(Attempted(a, Answering(act, x)), Watched(v, act))
  {
    hide Successes;
    LogAfter(a, act, x);
    if !act.Finish? { AlikeStep(a, v.s, act, x); }
  }

  lemma StepRecorded(a: State, v: Watch, act: Action, x: Answer)
    requires WatchOk(v) && v.ok && Recorded(a, v)
    ensures AtMostOneSoFar(Attempted(a, Answering(act, x)), Watched(v, act))
  {
    hide Successes;
    LogAfter(a, act, x);
  }

  lemma AtTheStart(start: State)
    requires Init(start)
    ensures WatchOk(Watch(start, 0, false, {}, true)) && NoneYet(start, Watch(start, 0, false, {}, true))
  {}

  lemma {:induction false} PrefixSchedule(start: State, schedule: seq<Action>, answers: seq<Answer>)
    requires |answers| <= |schedule|
    ensures After(start, schedule[..|answers|], answers) == After(start, schedule, answers)
    decreases |answers|
  {
    if answers != [] {
      var n := |answers| - 1;
      PrefixSchedule(start, schedule, answers[..n]);
      PrefixSchedule(start, schedule[..n + 1], answers[..n]);
      assert schedule[..n + 1][..n] == schedule[..n];
    }
  }

  lemma {:induction false} SeparatedIsEnough(start: State, schedule: seq<Action>, answers: seq<Answer>)
    requires Init(start) && |answers| == |schedule|
    ensures WatchOk(Watching(start, schedule))
    ensures AtMostOneSoFar(After(start, schedule, answers), Watching(start, schedule))
  {
    hide WatchOk, Attempted, Watched, NoneYet, UnderWay, Recorded;
    if schedule == [] {
      AtTheStart(start);
    } else {
      var n := |schedule| - 1;
      var a, v := After(start, schedule[..n], answers[..n]), Watching(start, schedule[..n]);
      SeparatedIsEnough(start, schedule[..n], answers[..n]);
      PrefixSchedule(start, schedule, answers[..n]);
      WatchStep(v, schedule[n]);
      if v.ok {
        if NoneYet(a, v) {
          StepFromNone(a, v, schedule[n], answers[n]);
        } else if UnderWay(a, v) {
          StepUnderWay(a, v, schedule[n], answers[n]);
        } else {
          StepRecorded(a, v, schedule[n], answers[n]);
        }
      }
    }
  }

  // ---- One that is not separated can succeed twice ----

  /** The success is recorded, and all the barred are still there. */
  ghost predicate Covered(a: State, v: Watch) {
    && Recorded(a, v) && forall x :: x in v.barred && x in v.s.workers ==> x in a.workers
  }

  /** The latest call has succeeded, and a barred worker's call would be another one. */
  ghost predicate Ready(a: State, v: Watch) {
    if v.open then UnderWay(a, v) else Covered(a, v)
  }

  /** It stays so as long as there is no call. */
  lemma ReadyStep(a: State, v: Watch, act: Action)
    requires WatchOk(v) && v.ok && Ready(a, v) && !(act.Call? && Possible(v.s, act))
    ensures Ready(Attempted(a, Answering(act, Failure)), Watched(v, act))
  {
    hide Successes;
    LogAfter(a, act, Failure);
    if v.open && !act.Finish? { AlikeStep(a, v.s, act, Failure); }
  }

  /** A first success after failures only. */
  lemma ReadyAfterCall(v: Watch, act: Action)
    requires WatchOk(v) && v.ok && act.Call? && Possible(v.s, act) && act.w !in v.barred
    ensures Ready(Attempted(v.s, Answering(act, Success)), Watched(v, act))
  {
    hide Successes;
    LogAfter(v.s, act, Success);
    AlikeStep(v.s, v.s, act, Success);
  }

  /** A barred worker's call is possible there as well. */
  lemma SecondSuccess(a: State, v: Watch, act: Action)
    requires WatchOk(v) && Ready(a, v) && act.Call? && Possible(v.s, act) && act.w in v.barred
    ensures Successes(Attempted(a, Answering(act, Success)).log) == 2
  {
    hide Successes;
    LogAfter(a, act, Success);
  }

  function Failing(n: nat): (answers: seq<Answer>)
    ensures |answers| == n
  {
    seq(n, _ => Failure)
  }

  lemma {:induction false} FailingIsWatched(start: State, schedule: seq<Action>)
    requires Init(start)
    ensures After(start, schedule, Failing(|schedule|)) == Watching(start, schedule).s
    ensures WatchOk(Watching(start, schedule))
  {
    hide WatchOk;
    if schedule == [] {
      AtTheStart(start);
    } else {
      var n := |schedule| - 1;
      FailingIsWatched(start, schedule[..n]);
      assert Failing(n + 1)[..n] == Failing(n);
      PrefixSchedule(start, schedule, Failing(n));
      WatchStep(Watching(start, schedule[..n]), schedule[n]);
    }
  }

  lemma StaysSeparated(v: Watch, act: Action)
    requires act.Call? && Possible(v.s, act)
    ensures Watched(v, act).ok <==> v.ok && act.w !in v.barred
  {}

  lemma NoCallNoBar(v: Watch, act: Action)
    requires !(act.Call? && Possible(v.s, act))
    ensures Watched(v, act).ok == v.ok
    ensures v.barred == {} && !v.open ==> Watched(v, act).barred == {} && !Watched(v, act).open
  {}

  /** As long as the schedule is separated, some answers lead to where a barred call would be a second success. */
  lemma {:induction false} SomeAnswers(start: State, schedule: seq<Action>) returns (answers: seq<Answer>)
    requires Init(start) && Watching(start, schedule).ok
    ensures |answers| == |schedule|
    ensures Watching(start, schedule).barred != {} || Watching(start, schedule).open ==>
      Ready(After(start, schedule, answers), Watching(start, schedule))
  {
    hide WatchOk, Ready, Attempted, Watched;
    answers := [];
    if schedule != [] {
      var n := |schedule| - 1;
      var v, act := Watching(start, schedule[..n]), schedule[n];
      FailingIsWatched(start, schedule[..n]);
      WatchStep(v, act);
      if act.Call? && Possible(v.s, act) {
        answers := Failing(n) + [Success];
        PrefixSchedule(start, schedule, Failing(n));
        AfterOneMore(start, schedule, Failing(n), Success);
        StaysSeparated(v, act);
        ReadyAfterCall(v, act);
      } else {
        var before := SomeAnswers(start, schedule[..n]);
        answers := before + [Failure];
        PrefixSchedule(start, schedule, before);
        AfterOneMore(start, schedule, before, Failure);
        NoCallNoBar(v, act);
        if v.barred != {} || v.open { ReadyStep(After(start, schedule, before), v, act); }
      }
    }
  }

  lemma {:induction false} TwiceUnlessSeparated(start: State, schedule: seq<Action>) returns (answers: seq<Answer>)
    requires Init(start) && !Separated(start, schedule)
    ensures |answers| == |schedule| && Successes(After(start, schedule, answers).log) >= 2
  {
    hide WatchOk, Ready, Attempted, Watched, Successes;
    var n := |schedule| - 1;
    var v, act := Watching(start, schedule[..n]), schedule[n];
    if v.ok {
      answers := SomeAnswers(start, schedule[..n]);
      var a := After(start, schedule, answers);
      PrefixSchedule(start, schedule, answers);
      FailingIsWatched(start, schedule[..n]);
      if act.Call? && Possible(v.s, act) { StaysSeparated(v, act); } else { NoCallNoBar(v, act); }
      SecondSuccess(a, v, act);
      AfterOneMore(start, schedule, answers, Success);
      answers := answers + [Success];
    } else {
      answers := TwiceUnlessSeparated(start, schedule[..n]);
      PrefixSchedule(start, schedule, answers);
      AfterOneMore(start, schedule, answers, Failure);
      LogAfter(After(start, schedule, answers), act, Failure);
      answers := answers + [Failure];
    }
  }

  /**
   Whatever the adapter answers there is at most one success, exactly if the worker of each call has finished before
   the worker of the next call starts.
   */
  lemma AtMostOnceExactlyWhen(start: State, schedule: seq<Action>)
    requires Init(start)
    ensures (forall answers :: |answers| == |schedule| ==> Successes(After(start, schedule, answers).log) <= 1)
       <==> Separated(start, schedule)
  {
    hide Successes, WatchOk, Watching;
    if Separated(start, schedule) {
      forall answers: seq<Answer> | |answers| == |schedule|
        ensures Successes(After(start, schedule, answers).log) <= 1 {
        SeparatedIsEnough(start, schedule, answers);
      }
    } else {
      var answers := TwiceUnlessSeparated(start, schedule);
    }
  }
}
