/**
 What Start, Stop and Close return, in terms of the stream as each call found it and
 of the answers its device gave.
 */
module Returns {
  import opened Options
  import opened Lifecycle

  // -- One call from its entry on ------------------------------------------------------

  // A stream that a Stop can stop: it was started, and nobody closes it.
  predicate Stoppable(s: State) {
    s.started && !s.closing && !s.phase.Closed?
  }

  // A stream that was neither started nor closed.
  predicate Fresh(s: State) {
    s.phase.Opened? && !s.closing
  }

  // Where a call can be that entered the stream as it was then.
  predicate OnCourse(entry: State, call: Call, s: State, at: Caller) {
    match call
    case Start =>
      if Fresh(entry)
      then at.StartWaiting? || at.StartReading? || (at == Returned(Start, s.fault.startErr) && s.did.startDones > 0)
      else at == Returned(Start, ERR_STATE)
    case Stop =>
      if Stoppable(entry)
      then at.StopInterrupting? || at.StopWaiting? || at == Returned(Stop, 0)
      else at.StopRefused? || at == Returned(Stop, ERR_STATE)
    case Close =>
      || Closing(at) || at.CloseFollowing? || at.CloseReading?
      || (at == Returned(Close, s.closeErr) && s.did.closeDones > 0)
  }

  lemma Entered(s: State, call: Call)
    requires Inv(s)
    ensures var r := Apply(s, Enter(call));
            |r.callers| == |s.callers| + 1 && OnCourse(s, call, r, r.callers[|s.callers|])
  {
    hide CallersOk, FailureOk, GoOn, ProceedAt;
  }

  lemma StaysOnCourse(entry: State, call: Call, s: State, c: nat, e: Step)
    requires Inv(s) && Enabled(s, e) && c < |s.callers| && OnCourse(entry, call, s, s.callers[c])
    ensures var r := Apply(s, e); c < |r.callers| && OnCourse(entry, call, r, r.callers[c])
  {
    assert CallerAt(s, c);
    hide CallersOk;
    match e
    case Enter(_) => EnterKeepsCourse(entry, call, s, c, e);
    case Proceed(_, _) => ProceedKeepsCourse(entry, call, s, c, e);
    case Go(_) => GoKeepsCourse(entry, call, s, c, e);
  }

  lemma EnterFrame(s: State, e: Step)
    requires e.Enter?
    ensures var r := Apply(s, e);
            && |r.callers| == |s.callers| + 1 && r.callers[..|s.callers|] == s.callers
            && r.fault == s.fault && r.did == s.did && r.closeErr == s.closeErr
  {
    hide GoOn, ProceedAt;
    match e.call
    case Start => hide EnterStop, EnterClose;
    case Stop => hide EnterStart, EnterClose;
    case Close => hide EnterStart, EnterStop;
  }

  lemma EnterKeepsCourse(entry: State, call: Call, s: State, c: nat, e: Step)
    requires e.Enter? && c < |s.callers| && OnCourse(entry, call, s, s.callers[c])
    ensures var r := Apply(s, e); c < |r.callers| && OnCourse(entry, call, r, r.callers[c])
  {
    EnterFrame(s, e);
    hide Apply;
    assert Apply(s, e).callers[..|s.callers|][c] == Apply(s, e).callers[c];
  }

  lemma ProceedKeepsCourse(entry: State, call: Call, s: State, c: nat, e: Step)
    requires e.Proceed? && Enabled(s, e) && CloserOk(s)
    requires c < |s.callers| && CallerAt(s, c) && OnCourse(entry, call, s, s.callers[c])
    requires e.c < |s.callers| && CallerAt(s, e.c)
    ensures var r := Apply(s, e); c < |r.callers| && OnCourse(entry, call, r, r.callers[c])
  {}

  lemma GoKeepsCourse(entry: State, call: Call, s: State, c: nat, e: Step)
    requires e.Go? && Enabled(s, e) && ThreadOk(s)
    requires c < |s.callers| && OnCourse(entry, call, s, s.callers[c])
    ensures var r := Apply(s, e); c < |r.callers| && OnCourse(entry, call, r, r.callers[c])
  {}

  lemma {:induction false} RunsOnCourse(entry: State, call: Call, s: State, c: nat, steps: seq<Step>)
    requires Inv(s) && c < |s.callers| && OnCourse(entry, call, s, s.callers[c])
    ensures var r := Run(s, steps); Inv(r) && c < |r.callers| && OnCourse(entry, call, r, r.callers[c])
    decreases |steps|
  {
    hide Inv, Apply, Enabled, OnCourse;
    if steps != [] {
      if Enabled(s, steps[0]) {
        KeptByStep(s, steps[0]);
        StaysOnCourse(entry, call, s, c, steps[0]);
        RunsOnCourse(entry, call, Apply(s, steps[0]), c, steps[1..]);
      } else {
        RunsOnCourse(entry, call, s, c, steps[1..]);
      }
    }
  }

  // A call that entered after one run and has returned after another.
  ghost predicate HasReturned(before: seq<Step>, call: Call, after: seq<Step>) {
    var entry := Run(Initial(), before);
    var r := Run(Apply(entry, Enter(call)), after);
    |entry.callers| < |r.callers| && r.callers[|entry.callers|].Returned?
  }

  // Over runs: a Stop that returned, returned nil if it found the stream started and
  // neither closing nor closed, running, stopping, stopped or failed alike, and the
  // state error if not. A Start that found it started, closing or closed returned the
  // state error; the one that did not returned what the thread stored as the answer of
  // the device. A Close returned the error of the one close of the device.
  lemma ReturnsExactly(before: seq<Step>, call: Call, after: seq<Step>)
    requires HasReturned(before, call, after)
    ensures var entry := Run(Initial(), before);
            var r := Run(Apply(entry, Enter(call)), after);
            var at := r.callers[|entry.callers|];
            && at.call == call
            && (call.Stop? ==> at.result == if Stoppable(entry) then 0 else ERR_STATE)
            && (call.Start? ==> at.result == if Fresh(entry) then r.fault.startErr else ERR_STATE)
            && (call.Close? ==> at.result == r.closeErr && r.phase.Closed?)
  {
    hide Run, Apply, FailureOk, ThreadOk;
    var entry := Run(Initial(), before);
    InvReached(before);
    Entered(entry, call);
    KeptByStep(entry, Enter(call));
    RunsOnCourse(entry, call, Apply(entry, Enter(call)), |entry.callers|, after);
    var r := Run(Apply(entry, Enter(call)), after);
    assert CallerAt(r, |entry.callers|);
  }

  // -- What the device answered ----------------------------------------------------------

  // The answer of device.Start in a run, if it was asked.
  function StartAnswer(s: State, steps: seq<Step>): Option<int>
    decreases |steps|
  {
    if steps == [] then None
    else if !Enabled(s, steps[0]) then StartAnswer(s, steps[1..])
    else if steps[0].Go? && s.thread.Starting? then Some(steps[0].err)
    else StartAnswer(Apply(s, steps[0]), steps[1..])
  }

  // And that of device.Close.
  function CloseAnswer(s: State, steps: seq<Step>): Option<int>
    decreases |steps|
  {
    if steps == [] then None
    else if !Enabled(s, steps[0]) then CloseAnswer(s, steps[1..])
    else if ClosesDevice(s, steps[0]) then Some(steps[0].err)
    else CloseAnswer(Apply(s, steps[0]), steps[1..])
  }

  // The device was asked to start and answered so; the answer is stored, or on its way.
  ghost predicate Answered(s: State, answer: int) {
    match s.thread
    case NotBegun => false
    case Starting => false
    case StartFailed(e) => answer == e
    case _ => s.fault.startErr == answer
  }

  lemma AnswerStays(s: State, answer: int, e: Step)
    requires Inv(s) && Enabled(s, e) && Answered(s, answer)
    ensures Answered(Apply(s, e), answer)
  {
    hide CallersOk, FailureOk, CloserOk, SetFailure, Next;
    if e.Go? { StartErrStays(s.fault, e.err); }
    if e.Go? && s.thread.FailureKnown? { StartErrStays(s.fault, s.thread.err); }
  }

  lemma StartErrStays(f: Fault, err: int)
    ensures SetFailure(f, err).startErr == f.startErr
  {}

  lemma AnswerComes(s: State, e: Step)
    requires Inv(s) && Enabled(s, e) && e.Go? && s.thread.Starting?
    ensures Answered(Apply(s, e), e.err)
  {}

  lemma {:induction false} AnsweredRun(s: State, answer: int, steps: seq<Step>)
    requires Inv(s) && Answered(s, answer)
    ensures Answered(Run(s, steps), answer)
    decreases |steps|
  {
    hide Inv, Apply, Enabled, Answered;
    if steps != [] {
      if Enabled(s, steps[0]) {
        KeptByStep(s, steps[0]);
        AnswerStays(s, answer, steps[0]);
        AnsweredRun(Apply(s, steps[0]), answer, steps[1..]);
      } else {
        AnsweredRun(s, answer, steps[1..]);
      }
    }
  }

  lemma NotAskedYet(s: State, e: Step)
    requires Inv(s) && Enabled(s, e) && (s.thread.NotBegun? || s.thread.Starting?) && !(e.Go? && s.thread.Starting?)
    ensures var r := Apply(s, e); r.thread.NotBegun? || r.thread.Starting?
  {
    hide CallersOk, FailureOk, CloserOk, Next;
  }

  lemma {:induction false} AnswerFound(s: State, steps: seq<Step>)
    requires Inv(s) && (s.thread.NotBegun? || s.thread.Starting?)
    ensures var (r, a) := (Run(s, steps), StartAnswer(s, steps));
            if a.Some? then Answered(r, a.value) else r.thread.NotBegun? || r.thread.Starting?
    decreases |steps|
  {
    hide Inv, Apply, Enabled, Answered;
    if steps != [] {
      var e, rest := steps[0], steps[1..];
      if !Enabled(s, e) {
        AnswerFound(s, rest);
      } else {
        KeptByStep(s, e);
        if e.Go? && s.thread.Starting? {
          AnswerComes(s, e);
          AnsweredRun(Apply(s, e), e.err, rest);
        } else {
          NotAskedYet(s, e);
          AnswerFound(Apply(s, e), rest);
        }
      }
    }
  }

  // Once Start may return, what it returns is what the device answered.
  lemma StartReturnsAnswer(steps: seq<Step>)
    ensures var s := Run(Initial(), steps);
            s.did.startDones > 0 ==> StartAnswer(Initial(), steps) == Some(s.fault.startErr)
  {
    hide Run, FailureOk, CallersOk, CloserOk;
    InvReached(steps);
    InvReached([]);
    RunNone(Initial());
    AnswerFound(Initial(), steps);
  }

  // The device was closed and answered so; the answer is stored, or about to be.
  ghost predicate CloseAnswered(s: State, answer: int) {
    && s.closing && s.closer < |s.callers|
    && (s.callers[s.closer] == CloseMarking(answer) || (s.callers[s.closer].Returned? && s.closeErr == answer))
  }

  lemma CloseAnswerComes(s: State, e: Step)
    requires Inv(s) && Enabled(s, e) && ClosesDevice(s, e)
    ensures CloseAnswered(Apply(s, e), e.err)
  {
    assert CallerAt(s, e.c);
    hide CallersOk, ThreadOk, FailureOk;
  }

  lemma CloseAnswerStays(s: State, answer: int, e: Step)
    requires Inv(s) && Enabled(s, e) && CloseAnswered(s, answer)
    ensures CloseAnswered(Apply(s, e), answer)
  {
    match e
    case Enter(_) => EnterFrame(s, e); CloserStays(s, e); hide Apply, Inv; EntersBehind(s, e);
    case Proceed(c, _) => assert CallerAt(s, c); hide CallersOk, ThreadOk, FailureOk;
    case Go(_) => hide CallersOk, ThreadOk, FailureOk;
  }

  lemma EntersBehind(s: State, e: Step)
    requires e.Enter? && s.closer < |s.callers|
    requires var r := Apply(s, e); |r.callers| == |s.callers| + 1 && r.callers[..|s.callers|] == s.callers
    ensures Apply(s, e).callers[s.closer] == s.callers[s.closer]
  {
    assert Apply(s, e).callers[..|s.callers|][s.closer] == Apply(s, e).callers[s.closer];
    hide Apply;
  }

  lemma CloserStays(s: State, e: Step)
    requires e.Enter? && s.closing
    ensures var r := Apply(s, e); r.closing && r.closer == s.closer
  {
    hide GoOn, ProceedAt;
  }

  lemma {:induction false} CloseAnsweredRun(s: State, answer: int, steps: seq<Step>)
    requires Inv(s) && CloseAnswered(s, answer)
    ensures CloseAnswered(Run(s, steps), answer)
    decreases |steps|
  {
    hide Inv, Apply, Enabled, CloseAnswered;
    if steps != [] {
      if Enabled(s, steps[0]) {
        KeptByStep(s, steps[0]);
        CloseAnswerStays(s, answer, steps[0]);
        CloseAnsweredRun(Apply(s, steps[0]), answer, steps[1..]);
      } else {
        CloseAnsweredRun(s, answer, steps[1..]);
      }
    }
  }

  lemma {:induction false} CloseAnswerFound(s: State, steps: seq<Step>)
    requires Inv(s) && s.did.closes == 0 && !s.did.late
    ensures var (r, a) := (Run(s, steps), CloseAnswer(s, steps));
            if a.Some? then CloseAnswered(r, a.value) else r.did.closes == 0
    decreases |steps|
  {
    hide Inv, Apply, Enabled, CloseAnswered;
    if steps != [] {
      var e, rest := steps[0], steps[1..];
      if !Enabled(s, e) {
        CloseAnswerFound(s, rest);
      } else {
        KeptByStep(s, e);
        if ClosesDevice(s, e) {
          CloseAnswerComes(s, e);
          CloseAnsweredRun(Apply(s, e), e.err, rest);
        } else {
          DeviceOpen(s, e);
          CloseAnswerFound(Apply(s, e), rest);
        }
      }
    }
  }

  // Once Close may return, what it returns is what the device answered.
  lemma CloseReturnsAnswer(steps: seq<Step>)
    ensures var s := Run(Initial(), steps);
            s.did.closeDones > 0 ==> CloseAnswer(Initial(), steps) == Some(s.closeErr)
  {
    hide Run, FailureOk, CallersOk, ThreadOk;
    InvReached(steps);
    InvReached([]);
    RunNone(Initial());
    CloseAnswerFound(Initial(), steps);
  }

  // -- The device is interrupted ---------------------------------------------------------

  // An Interrupt that was asked for was made, or the caller that took it owes it.
  ghost predicate Promised(s: State) {
    s.interrupt ==> s.did.interrupts == 1 || (s.owner < |s.callers| && Owes(s.callers[s.owner]))
  }

  lemma PromiseEntered(s: State, e: Step)
    requires Inv(s) && Promised(s) && e.Enter?
    ensures Promised(Apply(s, e))
  {
    hide GoOn, ProceedAt, CallersOk, FailureOk, ThreadOk;
  }

  lemma PromiseKept(s: State, e: Step)
    requires Inv(s) && Promised(s) && Enabled(s, e)
    ensures Promised(Apply(s, e))
  {
    match e
    case Enter(_) => PromiseEntered(s, e);
    case Proceed(c, _) => assert CallerAt(s, c); hide CallersOk, FailureOk, ThreadOk;
    case Go(_) => hide CallersOk, FailureOk, ThreadOk;
  }

  lemma {:induction false} PromiseRun(s: State, steps: seq<Step>)
    requires Inv(s) && Promised(s)
    ensures Promised(Run(s, steps)) && Inv(Run(s, steps))
    decreases |steps|
  {
    hide Inv, Apply, Enabled, Promised;
    if steps != [] {
      if Enabled(s, steps[0]) {
        KeptByStep(s, steps[0]);
        PromiseKept(s, steps[0]);
        PromiseRun(Apply(s, steps[0]), steps[1..]);
      } else {
        PromiseRun(s, steps[1..]);
      }
    }
  }

  ghost predicate AllReturned(s: State) {
    forall c :: 0 <= c < |s.callers| ==> s.callers[c].Returned?
  }

  // Once every call has returned, the device of a running stream that was asked to stop
  // has been interrupted exactly once.
  lemma InterruptedOnce(steps: seq<Step>)
    ensures var s := Run(Initial(), steps);
            AllReturned(s) && s.interrupt ==> s.did.interrupts == 1
  {
    hide Run, Inv;
    InvReached([]);
    RunNone(Initial());
    PromiseRun(Initial(), steps);
  }
}
