/**
  The upload server: request handlers that run side by side, one mutex that an upload
  holds from start to end, an unbuffered error channel, a stop channel closed through a
  once, and the select in Run that ends in a graceful shutdown.
*/
module Uploader {

  datatype Config = Config(keepAlive: bool, keepConcurrent: bool)

  datatype Method = Get | Post | Put | OtherMethod

  /** What `upload` returned: nil, an error no retry can fix, or any other error. */
  datatype Outcome = Fine | Permanent | Transient

  datatype HandlerPc =
    | Arrived(verb: Method)
    | Answered(status: nat)   // turned away by validateShouldHandleRequest
    | Checking                // waits for the mutex in validateShouldHandleRequest
    | Passed                  // waits for the mutex in processUpload
    | Uploading               // holds the mutex
    | Reporting               // holds the mutex, blocked on the error channel
    | Done(outcome: Outcome)

  datatype Cause = ByError | ByStop | BySignal

  datatype RunPc = Selecting | ShuttingDown(cause: Cause) | Returned(cause: Cause)

  datatype Holder = Free | HeldBy(i: nat)

  /** `verbs` are the methods of the requests, `stops` counts how often the stop channel has been closed. */
  datatype State = State(
    handlers: seq<HandlerPc>, verbs: seq<Method>, uploading: bool, mutex: Holder,
    stopOnce: bool, stops: nat, run: RunPc)

  datatype Label =
    | Arrive(verb: Method)
    | Dispatch(i: nat)
    | Check(i: nat)
    | Start(i: nat)
    | Finish(i: nat, outcome: Outcome)
    | Report(i: nat)
    | ServeFails
    | TakeStop
    | TakeSignal
    | ShutdownEnds

  // ---------------------------------------------------------------- steps

  function Init(): State {
    State([], [], false, Free, false, 0, Selecting)
  }

  predicate At(s: State, i: nat, pc: HandlerPc) {
    i < |s.handlers| && s.handlers[i] == pc
  }

  predicate Finished(pc: HandlerPc) {
    pc.Answered? || pc.Done?
  }

  predicate Enabled(s: State, l: Label) {
    match l
    // Requests may still come in while the listeners are being closed.
    case Arrive(_) => !s.run.Returned?
    case Dispatch(i) => i < |s.handlers| && s.handlers[i].Arrived?
    case Check(i) => At(s, i, Checking) && s.mutex.Free?
    case Start(i) => At(s, i, Passed) && s.mutex.Free?
    case Finish(i, _) => At(s, i, Uploading)
    // The channel is unbuffered: a send meets the select of Run or blocks.
    case Report(i) => At(s, i, Reporting) && s.run.Selecting?
    case ServeFails => s.run.Selecting?
    case TakeStop => s.run.Selecting? && s.stops > 0
    case TakeSignal => s.run.Selecting?
    // Shutdown waits for every request that is being served.
    case ShutdownEnds => s.run.ShuttingDown? && forall i :: 0 <= i < |s.handlers| ==> Finished(s.handlers[i])
  }

  function Set(s: State, i: nat, pc: HandlerPc): State
    requires i < |s.handlers|
  {
    s.(handlers := s.handlers[i := pc])
  }

  function StopListening(s: State): State {
    if s.stopOnce then s else s.(stopOnce := true, stops := s.stops + 1)
  }

  function Step(c: Config, s: State, l: Label): State
    requires Enabled(s, l)
  {
    match l
    case Arrive(verb) => s.(handlers := s.handlers + [Arrived(verb)], verbs := s.verbs + [verb])
    case Dispatch(i) =>
      Set(s, i, match s.handlers[i].verb
                case Get => Answered(200)
                case OtherMethod => Answered(404)
                case _ => Checking)
    case Check(i) =>
      if s.uploading && !c.keepConcurrent then Set(s, i, Answered(503))
      else Set(s.(uploading := true), i, Passed)
    case Start(i) => Set(s.(mutex := HeldBy(i)), i, Uploading)
    case Finish(i, outcome) =>
      if outcome == Transient && !c.keepAlive then Set(s, i, Reporting)
      else
        var t := if outcome == Permanent || (outcome == Fine && !c.keepAlive) then StopListening(s) else s;
        Set(t.(mutex := Free), i, Done(outcome))
    case Report(i) => Set(s.(mutex := Free, run := ShuttingDown(ByError)), i, Done(Transient))
    case ServeFails => s.(run := ShuttingDown(ByError))
    case TakeStop => s.(run := ShuttingDown(ByStop))
    case TakeSignal => s.(run := ShuttingDown(BySignal))
    case ShutdownEnds => s.(run := Returned(s.run.cause))
  }

  predicate IsRun(c: Config, s: State, ls: seq<Label>)
    decreases |ls|
  {
    ls == [] || (Enabled(s, ls[0]) && IsRun(c, Step(c, s, ls[0]), ls[1..]))
  }

  function RunTo(c: Config, s: State, ls: seq<Label>): State
    requires IsRun(c, s, ls)
    decreases |ls|
  {
    if ls == [] then s else RunTo(c, Step(c, s, ls[0]), ls[1..])
  }

  // ---------------------------------------------------------------- invariant

  predicate Holding(pc: HandlerPc) {
    pc.Uploading? || pc.Reporting?
  }

  /** The upload of this handler has begun. */
  predicate Started(pc: HandlerPc) {
    Holding(pc) || pc.Done?
  }

  predicate Admitted(pc: HandlerPc) {
    pc.Passed? || Started(pc)
  }

  /** An outcome that ends the life of the server. */
  predicate Verdict(c: Config, pc: HandlerPc) {
    pc == Done(Permanent) || (pc == Done(Fine) && !c.keepAlive)
  }

  predicate VerdictGiven(c: Config, hs: seq<HandlerPc>) {
    exists i :: 0 <= i < |hs| && Verdict(c, hs[i])
  }

  predicate MutexInv(s: State) {
    && (forall i :: 0 <= i < |s.handlers| && Holding(s.handlers[i]) ==> s.mutex == HeldBy(i))
    && (s.mutex.HeldBy? ==> s.mutex.i < |s.handlers| && Holding(s.handlers[s.mutex.i]))
  }

  predicate AdmissionInv(c: Config, hs: seq<HandlerPc>, uploading: bool) {
    && (forall i :: 0 <= i < |hs| && Admitted(hs[i]) ==> uploading)
    && (!c.keepConcurrent ==>
          forall i, j | 0 <= i < |hs| && 0 <= j < |hs| :: Admitted(hs[i]) && Admitted(hs[j]) ==> i == j)
    && (c.keepAlive ==> forall i :: 0 <= i < |hs| ==> !hs[i].Reporting?)
  }

  predicate StopInv(c: Config, s: State) {
    && s.stops == (if s.stopOnce then 1 else 0)
    && (s.stopOnce <==> VerdictGiven(c, s.handlers))
    && ((s.run == ShuttingDown(ByStop) || s.run == Returned(ByStop)) ==> s.stopOnce)
    && (s.run.Returned? ==> forall i :: 0 <= i < |s.handlers| ==> Finished(s.handlers[i]))
  }

  predicate Inv(c: Config, s: State) {
    MutexInv(s) && AdmissionInv(c, s.handlers, s.uploading) && StopInv(c, s)
  }

  lemma StepKeepsMutex(c: Config, s: State, l: Label)
    requires Inv(c, s) && Enabled(s, l)
    ensures MutexInv(Step(c, s, l))
  {
  }

  /** A handler moves on, or is admitted when no other one is. */
  lemma SetKeepsAdmission(c: Config, hs: seq<HandlerPc>, was: bool, now: bool, i: nat, pc: HandlerPc)
    requires AdmissionInv(c, hs, was) && i < |hs|
    requires was || Admitted(pc) ==> now
    requires Admitted(pc) && !Admitted(hs[i]) ==> !was || c.keepConcurrent
    requires c.keepAlive ==> !pc.Reporting?
    ensures AdmissionInv(c, hs[i := pc], now)
  {
  }

  lemma StepKeepsAdmission(c: Config, s: State, l: Label)
    requires Inv(c, s) && Enabled(s, l)
    ensures AdmissionInv(c, Step(c, s, l).handlers, Step(c, s, l).uploading)
  {
    var t := Step(c, s, l);
    match l
    case Dispatch(i) => SetKeepsAdmission(c, s.handlers, s.uploading, t.uploading, i, t.handlers[i]);
    case Check(i) => SetKeepsAdmission(c, s.handlers, s.uploading, t.uploading, i, t.handlers[i]);
    case Start(i) => SetKeepsAdmission(c, s.handlers, s.uploading, t.uploading, i, t.handlers[i]);
    case Finish(i, _) => SetKeepsAdmission(c, s.handlers, s.uploading, t.uploading, i, t.handlers[i]);
    case Report(i) => SetKeepsAdmission(c, s.handlers, s.uploading, t.uploading, i, t.handlers[i]);
    case _ =>
  }

  lemma SetVerdict(c: Config, hs: seq<HandlerPc>, i: nat, pc: HandlerPc)
    requires i < |hs| && !Verdict(c, hs[i])
    ensures VerdictGiven(c, hs[i := pc]) <==> VerdictGiven(c, hs) || Verdict(c, pc)
  {
    if Verdict(c, pc) {
      assert Verdict(c, hs[i := pc][i]);
    }
    if VerdictGiven(c, hs) {
      var j :| 0 <= j < |hs| && Verdict(c, hs[j]);
      assert Verdict(c, hs[i := pc][j]);
    }
  }

  lemma AddVerdict(c: Config, hs: seq<HandlerPc>, pc: HandlerPc)
    requires !Verdict(c, pc)
    ensures VerdictGiven(c, hs + [pc]) <==> VerdictGiven(c, hs)
  {
    if VerdictGiven(c, hs) {
      var j :| 0 <= j < |hs| && Verdict(c, hs[j]);
      assert Verdict(c, (hs + [pc])[j]);
    }
  }

  lemma StepKeepsStop(c: Config, s: State, l: Label)
    requires Inv(c, s) && Enabled(s, l)
    ensures StopInv(c, Step(c, s, l))
  {
    var t := Step(c, s, l);
    match l
    case Arrive(verb) => AddVerdict(c, s.handlers, Arrived(verb));
    case Dispatch(i) => SetVerdict(c, s.handlers, i, t.handlers[i]);
    case Check(i) => SetVerdict(c, s.handlers, i, t.handlers[i]);
    case Start(i) => SetVerdict(c, s.handlers, i, t.handlers[i]);
    case Finish(i, _) => SetVerdict(c, s.handlers, i, t.handlers[i]);
    case Report(i) => SetVerdict(c, s.handlers, i, t.handlers[i]);
    case _ =>
  }

  lemma {:induction false} RunKeepsInv(c: Config, s: State, ls: seq<Label>)
    requires Inv(c, s) && IsRun(c, s, ls)
    ensures Inv(c, RunTo(c, s, ls))
    decreases |ls|
  {
    if ls != [] {
      StepKeepsMutex(c, s, ls[0]);
      StepKeepsAdmission(c, s, ls[0]);
      StepKeepsStop(c, s, ls[0]);
      RunKeepsInv(c, Step(c, s, ls[0]), ls[1..]);
    }
  }

  // ---------------------------------------------------------------- safety

  ghost predicate Reachable(c: Config, s: State) {
    exists ls :: IsRun(c, Init(), ls) && RunTo(c, Init(), ls) == s
  }

  lemma ReachableInv(c: Config, s: State)
    requires Reachable(c, s)
    ensures Inv(c, s)
  {
    var ls :| IsRun(c, Init(), ls) && RunTo(c, Init(), ls) == s;
    RunKeepsInv(c, Init(), ls);
  }

  /** No two uploads run at once, and without keepConcurrent a second one never starts. */
  lemma OneUpload(c: Config, s: State, i: nat, j: nat)
    requires Reachable(c, s) && i < |s.handlers| && j < |s.handlers|
    ensures Holding(s.handlers[i]) && Holding(s.handlers[j]) ==> i == j
    ensures !c.keepConcurrent && Started(s.handlers[i]) && Started(s.handlers[j]) ==> i == j
  {
    ReachableInv(c, s);
  }

  /**
    The stop channel is closed at most once, and it is closed exactly when some upload has
    ended in a verdict; Run returns without an error of its own only by a verdict or a signal.
  */
  lemma StopsOnVerdict(c: Config, s: State)
    requires Reachable(c, s)
    ensures s.stops <= 1
    ensures s.stops == 1 <==>
            exists i :: 0 <= i < |s.handlers|
                        && (s.handlers[i] == Done(Permanent) || (s.handlers[i] == Done(Fine) && !c.keepAlive))
    ensures Enabled(s, TakeStop) <==> s.run.Selecting? && VerdictGiven(c, s.handlers)
    ensures s.run == Returned(ByStop) ==> VerdictGiven(c, s.handlers)
  {
    ReachableInv(c, s);
  }

  // ---------------------------------------------------------------- answers

  predicate SomeAdmitted(hs: seq<HandlerPc>) {
    exists k :: 0 <= k < |hs| && Admitted(hs[k])
  }

  /** What has become of a request with the given method. */
  predicate Fits(c: Config, verb: Method, pc: HandlerPc, uploading: bool) {
    match pc
    case Arrived(v) => v == verb
    case Answered(status) =>
      || (verb.Get? && status == 200) || (verb.OtherMethod? && status == 404)
      || ((verb.Post? || verb.Put?) && status == 503 && !c.keepConcurrent && uploading)
    case _ => verb.Post? || verb.Put?
  }

  predicate AnswerInv(c: Config, s: State) {
    && |s.verbs| == |s.handlers|
    && (forall i :: 0 <= i < |s.handlers| ==> Fits(c, s.verbs[i], s.handlers[i], s.uploading))
    && (s.uploading ==> SomeAdmitted(s.handlers))
  }

  lemma AdmittedStays(c: Config, s: State, l: Label, k: nat)
    requires Enabled(s, l) && k < |s.handlers| && Admitted(s.handlers[k])
    ensures k < |Step(c, s, l).handlers| && Admitted(Step(c, s, l).handlers[k])
  {
  }

  lemma FitsStays(c: Config, s: State, l: Label, i: nat)
    requires AnswerInv(c, s) && Enabled(s, l) && i < |s.handlers|
    ensures var t := Step(c, s, l);
            i < |t.handlers| == |t.verbs| && Fits(c, t.verbs[i], t.handlers[i], t.uploading)
  {
  }

  lemma StepKeepsAnswers(c: Config, s: State, l: Label)
    requires AnswerInv(c, s) && Enabled(s, l)
    ensures AnswerInv(c, Step(c, s, l))
  {
    var t := Step(c, s, l);
    forall i | 0 <= i < |t.handlers|
      ensures |t.verbs| == |t.handlers| && Fits(c, t.verbs[i], t.handlers[i], t.uploading)
    {
      if i < |s.handlers| {
        FitsStays(c, s, l, i);
      }
    }
    if s.uploading {
      var k: nat :| k < |s.handlers| && Admitted(s.handlers[k]);
      AdmittedStays(c, s, l, k);
    } else if t.uploading {
      assert Admitted(t.handlers[l.i]);
    }
  }

  lemma {:induction false} RunKeepsAnswers(c: Config, s: State, ls: seq<Label>)
    requires AnswerInv(c, s) && IsRun(c, s, ls)
    ensures AnswerInv(c, RunTo(c, s, ls))
    decreases |ls|
  {
    if ls != [] {
      StepKeepsAnswers(c, s, ls[0]);
      RunKeepsAnswers(c, Step(c, s, ls[0]), ls[1..]);
    }
  }

  lemma ReachableAnswers(c: Config, s: State)
    requires Reachable(c, s)
    ensures AnswerInv(c, s)
  {
    var ls :| IsRun(c, Init(), ls) && RunTo(c, Init(), ls) == s;
    RunKeepsAnswers(c, Init(), ls);
  }

  /**
    The answers: 200 to exactly the GETs, 404 to exactly the methods that are not supported,
    and 503 only to an upload that comes while another one is or was admitted and concurrent
    uploads are off.
  */
  lemma AnswersExactlyWhen(c: Config, s: State, i: nat)
    requires Reachable(c, s) && i < |s.handlers|
    ensures |s.verbs| == |s.handlers|
    ensures !s.handlers[i].Arrived? ==>
              && (s.handlers[i] == Answered(200) <==> s.verbs[i] == Get)
              && (s.handlers[i] == Answered(404) <==> s.verbs[i] == OtherMethod)
    ensures s.handlers[i].Answered? ==> s.handlers[i].status in {200, 404, 503}
    ensures s.handlers[i] == Answered(503) ==>
              && !c.keepConcurrent && (s.verbs[i] == Post || s.verbs[i] == Put)
              && exists k :: 0 <= k < |s.handlers| && k != i && Admitted(s.handlers[k])
  {
    ReachableAnswers(c, s);
    if s.handlers[i] == Answered(503) {
      var k :| 0 <= k < |s.handlers| && Admitted(s.handlers[k]);
      assert k != i;
    }
  }

  /** A check admits if and only if concurrent uploads are on or none has been admitted yet. */
  lemma CheckAdmitsExactlyWhen(c: Config, s: State, i: nat)
    requires Reachable(c, s) && Enabled(s, Check(i))
    ensures Step(c, s, Check(i)).handlers[i] ==
            if c.keepConcurrent || !SomeAdmitted(s.handlers) then Passed else Answered(503)
  {
    ReachableAnswers(c, s);
    ReachableInv(c, s);
  }

  ghost predicate TwoStarted(c: Config, s: State) {
    Reachable(c, s) && exists i, j :: 0 <= i < j < |s.handlers| && Started(s.handlers[i]) && Started(s.handlers[j])
  }

  /** Two uploads can be started in the life of a server if and only if concurrent uploads are on. */
  lemma TwoStartExactlyWhen(c: Config)
    ensures (exists s :: TwoStarted(c, s)) <==> c.keepConcurrent
  {
    if c.keepConcurrent {
      BothPass(c);
      var s0 := State([Passed, Passed], [Post, Post], true, Free, false, 0, Selecting);
      ReachStep(c, s0, Start(0));
      var s1 := State([Uploading, Passed], [Post, Post], true, HeldBy(0), false, 0, Selecting);
      ReachStep(c, s1, Finish(0, Permanent));
      var s2 := State([Done(Permanent), Passed], [Post, Post], true, Free, true, 1, Selecting);
      ReachStep(c, s2, Start(1));
      var s3 := State([Done(Permanent), Uploading], [Post, Post], true, HeldBy(1), true, 1, Selecting);
      assert Started(s3.handlers[0]) && Started(s3.handlers[1]);
      assert TwoStarted(c, s3);
    } else {
      forall s | TwoStarted(c, s)
        ensures false
      {
        ReachableInv(c, s);
        assert false;
      }
    }
  }

  lemma BothArrive(c: Config)
    ensures Reachable(c, State([Arrived(Post), Arrived(Post)], [Post, Post], false, Free, false, 0, Selecting))
  {
    OneArrives(c);
    ReachStep(c, State([Arrived(Post)], [Post], false, Free, false, 0, Selecting), Arrive(Post));
    assert [Arrived(Post)] + [Arrived(Post)] == [Arrived(Post), Arrived(Post)] && [Post] + [Post] == [Post, Post];
  }

  lemma BothCheck(c: Config)
    ensures Reachable(c, State([Checking, Checking], [Post, Post], false, Free, false, 0, Selecting))
  {
    BothArrive(c);
    ReachStep(c, State([Arrived(Post), Arrived(Post)], [Post, Post], false, Free, false, 0, Selecting), Dispatch(0));
    ReachStep(c, State([Checking, Arrived(Post)], [Post, Post], false, Free, false, 0, Selecting), Dispatch(1));
  }

  lemma BothPass(c: Config)
    requires c.keepConcurrent
    ensures Reachable(c, State([Passed, Passed], [Post, Post], true, Free, false, 0, Selecting))
  {
    BothCheck(c);
    ReachStep(c, State([Checking, Checking], [Post, Post], false, Free, false, 0, Selecting), Check(0));
    ReachStep(c, State([Passed, Checking], [Post, Post], true, Free, false, 0, Selecting), Check(1));
  }

  // ---------------------------------------------------------------- why Run ended

  predicate Left(run: RunPc, cause: Cause) {
    run == ShuttingDown(cause) || run == Returned(cause)
  }

  /** The steps that make Run leave its select. */
  predicate Ends(l: Label, cause: Cause) {
    match l
    case Report(_) => cause == ByError
    case ServeFails => cause == ByError
    case TakeStop => cause == ByStop
    case TakeSignal => cause == BySignal
    case _ => false
  }

  predicate SomeEnds(ls: seq<Label>, cause: Cause) {
    exists i :: 0 <= i < |ls| && Ends(ls[i], cause)
  }

  lemma SomeEndsNext(ls: seq<Label>, cause: Cause)
    requires ls != []
    ensures SomeEnds(ls, cause) <==> Ends(ls[0], cause) || SomeEnds(ls[1..], cause)
  {
    if i :| 0 <= i < |ls[1..]| && Ends(ls[1..][i], cause) {
      assert Ends(ls[i + 1], cause);
    }
    if i :| 1 <= i < |ls| && Ends(ls[i], cause) {
      assert Ends(ls[1..][i - 1], cause);
    }
  }

  lemma {:induction false} RunLeaves(c: Config, s: State, ls: seq<Label>, cause: Cause)
    requires IsRun(c, s, ls)
    ensures Left(RunTo(c, s, ls).run, cause) <==> Left(s.run, cause) || SomeEnds(ls, cause)
    decreases |ls|
  {
    if ls != [] {
      RunLeaves(c, Step(c, s, ls[0]), ls[1..], cause);
      SomeEndsNext(ls, cause);
      assert Left(Step(c, s, ls[0]).run, cause) <==> Left(s.run, cause) || Ends(ls[0], cause);
    }
  }

  /** Run ends with what it took in its select: an error, the stop, or a signal. */
  lemma RunEndsAsItMet(c: Config, ls: seq<Label>, cause: Cause)
    requires IsRun(c, Init(), ls)
    ensures Left(RunTo(c, Init(), ls).run, cause) <==> SomeEnds(ls, cause)
  {
    RunLeaves(c, Init(), ls, cause);
  }

  // ---------------------------------------------------------------- liveness

  /** A handler whose report nobody will take. */
  predicate Stuck(s: State, i: nat) {
    At(s, i, Reporting) && !s.run.Selecting?
  }

  lemma StuckStep(c: Config, s: State, i: nat, l: Label)
    requires MutexInv(s) && Stuck(s, i) && Enabled(s, l)
    ensures Stuck(Step(c, s, l), i)
  {
  }

  lemma {:induction false} StuckForever(c: Config, s: State, i: nat, ls: seq<Label>)
    requires Inv(c, s) && Stuck(s, i) && IsRun(c, s, ls)
    ensures Stuck(RunTo(c, s, ls), i) && !RunTo(c, s, ls).run.Returned?
    decreases |ls|
  {
    if ls != [] {
      StuckStep(c, s, i, ls[0]);
      StepKeepsMutex(c, s, ls[0]);
      StepKeepsAdmission(c, s, ls[0]);
      StepKeepsStop(c, s, ls[0]);
      StuckForever(c, Step(c, s, ls[0]), i, ls[1..]);
    }
  }

  /** A continuation in which the report of handler `i` is over. */
  predicate EndsReport(c: Config, s: State, i: nat, ls: seq<Label>) {
    IsRun(c, s, ls) && !At(RunTo(c, s, ls), i, Reporting)
  }

  /**
    A failed upload is reported if and only if Run is still in its select. Otherwise the
    handler keeps the mutex for good, and the shutdown that waits for it never ends.
  */
  lemma ReportedExactlyWhenSelecting(c: Config, s: State, i: nat)
    requires Reachable(c, s) && At(s, i, Reporting)
    ensures s.run.Selecting? <==> exists ls :: EndsReport(c, s, i, ls)
    ensures !s.run.Selecting? ==> forall ls | IsRun(c, s, ls) :: !RunTo(c, s, ls).run.Returned?
  {
    ReachableInv(c, s);
    if s.run.Selecting? {
      var ls := [Report(i)];
      assert ls[1..] == [];
      assert IsRun(c, Step(c, s, ls[0]), ls[1..]);
      assert RunTo(c, s, ls) == Step(c, s, Report(i));
      assert Step(c, s, Report(i)).handlers[i] == Done(Transient);
      assert EndsReport(c, s, i, ls);
    } else {
      forall ls | IsRun(c, s, ls)
        ensures At(RunTo(c, s, ls), i, Reporting) && !RunTo(c, s, ls).run.Returned?
      {
        StuckForever(c, s, i, ls);
      }
    }
  }

  // ---------------------------------------------------------------- who can finish

  predicate NobodyReports(s: State) {
    forall k :: 0 <= k < |s.handlers| ==> !s.handlers[k].Reporting?
  }

  /** A handler that needs the mutex, now or later. */
  predicate NeedsMutex(pc: HandlerPc) {
    !Finished(pc) && !(pc.Arrived? && (pc.verb.Get? || pc.verb.OtherMethod?))
  }

  lemma BlockedStep(c: Config, s: State, k: nat, i: nat, l: Label)
    requires MutexInv(s) && Stuck(s, k) && i < |s.handlers| && NeedsMutex(s.handlers[i]) && Enabled(s, l)
    ensures i < |Step(c, s, l).handlers| && NeedsMutex(Step(c, s, l).handlers[i])
  {
  }

  lemma StepKeepsInv(c: Config, s: State, l: Label)
    requires Inv(c, s) && Enabled(s, l)
    ensures Inv(c, Step(c, s, l))
  {
    StepKeepsMutex(c, s, l);
    StepKeepsAdmission(c, s, l);
    StepKeepsStop(c, s, l);
  }

  lemma {:induction false} BlockedForever(c: Config, s: State, k: nat, i: nat, ls: seq<Label>)
    requires Inv(c, s) && Stuck(s, k) && i < |s.handlers| && NeedsMutex(s.handlers[i]) && IsRun(c, s, ls)
    ensures i < |RunTo(c, s, ls).handlers| && !Finished(RunTo(c, s, ls).handlers[i])
    decreases |ls|
  {
    if ls != [] {
      BlockedStep(c, s, k, i, ls[0]);
      StuckStep(c, s, k, ls[0]);
      StepKeepsInv(c, s, ls[0]);
      BlockedForever(c, Step(c, s, ls[0]), k, i, ls[1..]);
    }
  }

  ghost predicate Leads(c: Config, s: State, t: State) {
    exists ls :: IsRun(c, s, ls) && RunTo(c, s, ls) == t
  }

  lemma Stay(c: Config, s: State)
    ensures Leads(c, s, s)
  {
    assert IsRun(c, s, []) && RunTo(c, s, []) == s;
  }

  lemma First(c: Config, s: State, l: Label, t: State)
    requires Enabled(s, l) && Leads(c, Step(c, s, l), t)
    ensures Leads(c, s, t)
  {
    var rest :| IsRun(c, Step(c, s, l), rest) && RunTo(c, Step(c, s, l), rest) == t;
    var ls := [l] + rest;
    assert ls[0] == l && ls[1..] == rest;
    assert IsRun(c, s, ls) && RunTo(c, s, ls) == t;
  }

  lemma {:induction false} Onward(c: Config, s: State, ls: seq<Label>, t: State)
    requires IsRun(c, s, ls) && Leads(c, RunTo(c, s, ls), t)
    ensures Leads(c, s, t)
    decreases |ls|
  {
    if ls != [] {
      Onward(c, Step(c, s, ls[0]), ls[1..], t);
      First(c, s, ls[0], t);
    }
  }

  lemma Then(c: Config, s: State, m: State, t: State)
    requires Leads(c, s, m) && Leads(c, m, t)
    ensures Leads(c, s, t)
  {
    var ls :| IsRun(c, s, ls) && RunTo(c, s, ls) == m;
    Onward(c, s, ls, t);
  }

  function Stage(pc: HandlerPc): nat {
    match pc
    case Arrived(_) => 4
    case Checking => 3
    case Passed => 2
    case Uploading => 1
    case _ => 0
  }

  /** The step that brings handler `i` further, or frees the mutex for it. */
  function NextFor(s: State, i: nat): Label
    requires i < |s.handlers|
  {
    var pc := s.handlers[i];
    if pc.Arrived? then Dispatch(i)
    else if pc.Uploading? then Finish(i, Fine)
    else if s.mutex.HeldBy? then Finish(s.mutex.i, Fine)
    else if pc.Checking? then Check(i)
    else Start(i)
  }

  /** `t` is `s` with no handler fallen back and nobody reporting. */
  predicate Onwards(s: State, t: State) {
    && |t.handlers| == |s.handlers| && t.run == s.run && NobodyReports(t)
    && forall j :: 0 <= j < |s.handlers| && Finished(s.handlers[j]) ==> Finished(t.handlers[j])
  }

  lemma NextIsEnabled(s: State, i: nat)
    requires MutexInv(s) && NobodyReports(s) && i < |s.handlers| && !Finished(s.handlers[i])
    ensures Enabled(s, NextFor(s, i))
  {
  }

  lemma NextGoesOn(c: Config, s: State, i: nat)
    requires NobodyReports(s) && i < |s.handlers| && !Finished(s.handlers[i]) && Enabled(s, NextFor(s, i))
    ensures Onwards(s, Step(c, s, NextFor(s, i)))
  {
    var l := NextFor(s, i);
    var t := Step(c, s, l);
    var who := if l.Finish? then l.i else i;
    assert t.handlers == s.handlers[who := t.handlers[who]] && !Finished(s.handlers[who]);
  }

  lemma NextGetsCloser(c: Config, s: State, i: nat)
    requires i < |s.handlers| && !Finished(s.handlers[i]) && !s.handlers[i].Reporting? && Enabled(s, NextFor(s, i))
    ensures var t := Step(c, s, NextFor(s, i));
            || Stage(t.handlers[i]) < Stage(s.handlers[i])
            || (Stage(t.handlers[i]) == Stage(s.handlers[i]) && s.mutex.HeldBy? && t.mutex.Free?)
  {
  }

  /** While nobody reports, any handler can be brought to its end. */
  lemma {:induction false} FinishOne(c: Config, s: State, i: nat) returns (t: State)
    requires Inv(c, s) && NobodyReports(s) && i < |s.handlers|
    ensures Leads(c, s, t) && Inv(c, t) && Onwards(s, t) && Finished(t.handlers[i])
    decreases Stage(s.handlers[i]), s.mutex.HeldBy?
  {
    if Finished(s.handlers[i]) {
      t := s;
      Stay(c, s);
    } else {
      var l := NextFor(s, i);
      NextIsEnabled(s, i);
      NextGoesOn(c, s, i);
      NextGetsCloser(c, s, i);
      StepKeepsInv(c, s, l);
      t := FinishOne(c, Step(c, s, l), i);
      First(c, s, l, t);
    }
  }

  lemma {:induction false} FinishFirst(c: Config, s: State, n: nat) returns (t: State)
    requires Inv(c, s) && NobodyReports(s) && n <= |s.handlers|
    ensures Leads(c, s, t) && Inv(c, t) && Onwards(s, t)
    ensures forall j :: 0 <= j < n ==> Finished(t.handlers[j])
    decreases n
  {
    if n == 0 {
      t := s;
      Stay(c, s);
    } else {
      var m := FinishFirst(c, s, n - 1);
      t := FinishOne(c, m, n - 1);
      Then(c, s, m, t);
    }
  }

  /** Run takes the report that is waiting, or a signal: then nobody reports any more. */
  lemma LeaveSelect(c: Config, s: State) returns (l: Label)
    requires Inv(c, s) && s.run.Selecting?
    ensures Enabled(s, l) && NobodyReports(Step(c, s, l)) && Step(c, s, l).run.ShuttingDown?
    ensures |Step(c, s, l).handlers| == |s.handlers| && Inv(c, Step(c, s, l))
  {
    if k: nat :| k < |s.handlers| && s.handlers[k].Reporting? {
      l := Report(k);
    } else {
      l := TakeSignal;
    }
    StepKeepsInv(c, s, l);
  }

  ghost predicate CanFinish(c: Config, s: State, i: nat) {
    exists t :: Leads(c, s, t) && i < |t.handlers| && Finished(t.handlers[i])
  }

  /**
    A handler can be brought to its end if and only if it never needs the mutex, Run is
    still in its select, or nobody is stuck with a report.
  */
  lemma CanFinishExactlyWhen(c: Config, s: State, i: nat)
    requires Reachable(c, s) && i < |s.handlers|
    ensures CanFinish(c, s, i) <==> !NeedsMutex(s.handlers[i]) || s.run.Selecting? || NobodyReports(s)
  {
    ReachableInv(c, s);
    if NobodyReports(s) {
      var t := FinishOne(c, s, i);
    } else if s.run.Selecting? {
      var l := LeaveSelect(c, s);
      var t := FinishOne(c, Step(c, s, l), i);
      First(c, s, l, t);
    } else if Finished(s.handlers[i]) {
      Stay(c, s);
    } else if !NeedsMutex(s.handlers[i]) {
      Stay(c, Step(c, s, Dispatch(i)));
      First(c, s, Dispatch(i), Step(c, s, Dispatch(i)));
    } else {
      var k: nat :| k < |s.handlers| && s.handlers[k].Reporting?;
      forall t | Leads(c, s, t)
        ensures i < |t.handlers| && !Finished(t.handlers[i])
      {
        var ls :| IsRun(c, s, ls) && RunTo(c, s, ls) == t;
        BlockedForever(c, s, k, i, ls);
      }
    }
  }

  ghost predicate CanReturn(c: Config, s: State) {
    exists t :: Leads(c, s, t) && t.run.Returned?
  }

  lemma ReturnFromShutdown(c: Config, s: State)
    requires Inv(c, s) && NobodyReports(s) && s.run.ShuttingDown?
    ensures CanReturn(c, s)
  {
    var m := FinishFirst(c, s, |s.handlers|);
    var t := Step(c, m, ShutdownEnds);
    Stay(c, t);
    First(c, m, ShutdownEnds, t);
    Then(c, s, m, t);
  }

  /** Run can return if and only if it is still in its select or nobody is stuck with a report. */
  lemma CanReturnExactlyWhen(c: Config, s: State)
    requires Reachable(c, s)
    ensures CanReturn(c, s) <==> s.run.Selecting? || NobodyReports(s)
  {
    ReachableInv(c, s);
    if s.run.Selecting? {
      var l := LeaveSelect(c, s);
      ReturnFromShutdown(c, Step(c, s, l));
      var t :| Leads(c, Step(c, s, l), t) && t.run.Returned?;
      First(c, s, l, t);
    } else if s.run.Returned? {
      Stay(c, s);
    } else if NobodyReports(s) {
      ReturnFromShutdown(c, s);
    } else {
      var k: nat :| k < |s.handlers| && s.handlers[k].Reporting?;
      forall t | Leads(c, s, t)
        ensures !t.run.Returned?
      {
        var ls :| IsRun(c, s, ls) && RunTo(c, s, ls) == t;
        StuckForever(c, s, k, ls);
      }
    }
  }

  // ---------------------------------------------------------------- when it can hang

  lemma {:induction false} Extend(c: Config, s: State, ls: seq<Label>, l: Label)
    requires IsRun(c, s, ls) && Enabled(RunTo(c, s, ls), l)
    ensures IsRun(c, s, ls + [l]) && RunTo(c, s, ls + [l]) == Step(c, RunTo(c, s, ls), l)
    decreases |ls|
  {
    if ls == [] {
      assert [l][1..] == [];
    } else {
      assert (ls + [l])[1..] == ls[1..] + [l];
      Extend(c, Step(c, s, ls[0]), ls[1..], l);
    }
  }

  lemma ReachStep(c: Config, s: State, l: Label)
    requires Reachable(c, s) && Enabled(s, l)
    ensures Reachable(c, Step(c, s, l))
  {
    var ls :| IsRun(c, Init(), ls) && RunTo(c, Init(), ls) == s;
    Extend(c, Init(), ls, l);
  }

  lemma OneArrives(c: Config)
    ensures Reachable(c, State([Arrived(Post)], [Post], false, Free, false, 0, Selecting))
  {
    assert IsRun(c, Init(), []) && RunTo(c, Init(), []) == Init();
    ReachStep(c, Init(), Arrive(Post));
    assert [] + [Arrived(Post)] == [Arrived(Post)] && [] + [Post] == [Post];
  }

  lemma OnePasses(c: Config)
    ensures Reachable(c, State([Passed], [Post], true, Free, false, 0, Selecting))
  {
    OneArrives(c);
    ReachStep(c, State([Arrived(Post)], [Post], false, Free, false, 0, Selecting), Dispatch(0));
    ReachStep(c, State([Checking], [Post], false, Free, false, 0, Selecting), Check(0));
  }

  lemma OneUploads(c: Config)
    ensures Reachable(c, State([Uploading], [Post], true, HeldBy(0), false, 0, Selecting))
  {
    OnePasses(c);
    ReachStep(c, State([Passed], [Post], true, Free, false, 0, Selecting), Start(0));
  }

  /** Such a hang can happen exactly in a server that does not outlive its uploads. */
  lemma CanHangExactlyWhen(c: Config)
    ensures (exists s, i :: Reachable(c, s) && Stuck(s, i)) <==> !c.keepAlive
  {
    if c.keepAlive {
      forall s, i: nat | Reachable(c, s)
        ensures !Stuck(s, i)
      {
        ReachableInv(c, s);
      }
    } else {
      OneUploads(c);
      var s4 := State([Uploading], [Post], true, HeldBy(0), false, 0, Selecting);
      ReachStep(c, s4, TakeSignal);
      var s5 := State([Uploading], [Post], true, HeldBy(0), false, 0, ShuttingDown(BySignal));
      ReachStep(c, s5, Finish(0, Transient));
      assert Stuck(Step(c, s5, Finish(0, Transient)), 0);
    }
  }
}
