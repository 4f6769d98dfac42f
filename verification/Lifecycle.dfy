/**
 Start, Stop and Close of a stream, called by any number of threads at any time,
 beside the stream thread. A section under the mutex is one step; so is each call
 into the device, each wait on a channel and each close of one. Errors are
 numbers, and 0 is none.
 */
module Lifecycle {

  datatype Phase = Opened | Running | Stopping | Stopped | Failed | Closed

  // Where the stream thread is.
  datatype Thread =
    | NotBegun
    | Starting                 // about to call device.Start
    | StartFailed(err: int)    // about to store startErr
    | FailureKnown(err: int)   // about to record the failure
    | Abandoning               // about to call device.Stop after a failed start
    | AnnounceFailed           // about to close startDone after a failed start
    | Announce                 // about to close startDone
    | Looping
    | StopDevice               // about to call device.Stop
    | Finishing                // about to take the final state and close done
    | Finished

  datatype Call = Start | Stop | Close

  const ERR_STATE := -1

  // Where one caller is. A call that returned keeps its result.
  datatype Caller =
    | StartWaiting             // awaits startDone
    | StartReading             // about to read startErr
    | StopInterrupting         // owes the device one Interrupt
    | StopWaiting              // awaits done
    | StopRefused              // awaits closeDone, then refuses
    | CloseInterrupting        // owes the device one Interrupt
    | CloseWaiting             // awaits done
    | CloseDevice              // about to call device.Close
    | CloseMarking(err: int)   // device.Close returned err
    | CloseFollowing           // awaits closeDone of another Close
    | CloseReading             // about to read closeErr
    | Returned(call: Call, result: int)

  // How often each channel was closed and each device operation called, and
  // whether the device was interrupted after it had been closed.
  datatype Tally = Tally(
    startDones: nat, dones: nat, closeDones: nat,
    starts: nat, stops: nat, interrupts: nat, closes: nat, late: bool)

  // The failure the stream keeps, and all errors the stream thread reported.
  datatype Fault = Fault(startErr: int, ready: bool, failure: int, errors: seq<int>)

  datatype State = State(
    phase: Phase, started: bool, closing: bool, interrupt: bool, stopRequested: bool,
    closeErr: int, fault: Fault, did: Tally, thread: Thread, callers: seq<Caller>,
    // History: which caller took the interrupt, and which the closing.
    owner: nat, closer: nat)

  function Initial(): State {
    State(Opened, false, false, false, false, 0, Fault(0, false, 0, []),
          Tally(0, 0, 0, 0, 0, 0, 0, false), NotBegun, [], 0, 0)
  }

  // A new call enters its first section; caller c takes its next step; the stream
  // thread takes its next step. err is what the device answers, if it is asked.
  datatype Step = Enter(call: Call) | Proceed(c: nat, err: int) | Go(err: int)

  predicate Enabled(s: State, e: Step) {
    match e
    case Enter(_) => true
    case Proceed(c, _) =>
      c < |s.callers| &&
      (match s.callers[c]
       case StartWaiting => s.did.startDones > 0
       case StopWaiting => s.did.dones > 0
       case StopRefused => s.did.closeDones > 0
       case CloseWaiting => s.did.dones > 0
       case CloseFollowing => s.did.closeDones > 0
       case Returned(_, _) => false
       case _ => true)
    case Go(err) =>
      // The loop ends when a stop was requested or something failed.
      match s.thread
      case NotBegun => false
      case Finished => false
      case Looping => s.stopRequested || err != 0
      case _ => true
  }

  // setFailure keeps the first error.
  function SetFailure(f: Fault, err: int): Fault {
    if err == 0 then f
    else if f.ready then f.(errors := f.errors + [err])
    else f.(ready := true, failure := err, errors := f.errors + [err])
  }

  function Join(s: State, at: Caller): State {
    s.(callers := s.callers + [at])
  }

  function EnterStart(s: State): (r: State)
    ensures r.did == s.did
  {
    if !s.phase.Opened? || s.closing then Join(s, Returned(Start, ERR_STATE))
    else Join(s.(phase := Running, started := true, thread := Starting), StartWaiting)
  }

  function EnterStop(s: State): (r: State)
    ensures r.did == s.did
  {
    if s.closing || s.phase.Closed? then Join(s, StopRefused)
    else if !s.started then Join(s, Returned(Stop, ERR_STATE))
    else if s.phase.Stopped? || s.phase.Failed? then Join(s, Returned(Stop, 0))
    else if !s.phase.Running? && !s.phase.Stopping? then Join(s, Returned(Stop, ERR_STATE))
    else
      Join(s.(phase := Stopping, stopRequested := true, interrupt := true,
              owner := if s.interrupt then s.owner else |s.callers|),
           if s.interrupt then StopWaiting else StopInterrupting)
  }

  function EnterClose(s: State): (r: State)
    ensures r.did == s.did
  {
    if s.closing then Join(s, CloseFollowing)
    else if s.phase.Closed? then Join(s, Returned(Close, s.closeErr))
    else if s.started && !s.phase.Stopped? && !s.phase.Failed? then
      Join(s.(closing := true, closer := |s.callers|, phase := Stopping, stopRequested := true,
              interrupt := true, owner := if s.interrupt then s.owner else |s.callers|),
           if s.interrupt then CloseWaiting else CloseInterrupting)
    else
      Join(s.(closing := true, closer := |s.callers|), if s.started then CloseWaiting else CloseDevice)
  }

  // Where a caller goes with its next step.
  function Next(s: State, at: Caller, err: int): Caller {
    match at
    case StartWaiting => StartReading
    case StartReading => Returned(Start, s.fault.startErr)
    case StopInterrupting => StopWaiting
    case StopWaiting => Returned(Stop, 0)
    case StopRefused => Returned(Stop, ERR_STATE)
    case CloseInterrupting => CloseWaiting
    case CloseWaiting => CloseDevice
    case CloseDevice => CloseMarking(err)
    case CloseMarking(result) => Returned(Close, result)
    case CloseFollowing => CloseReading
    case CloseReading => Returned(Close, s.closeErr)
    case Returned(_, _) => at
  }

  // And what that step does to the stream and the device.
  function Effect(s: State, at: Caller): (r: State)
    ensures r.callers == s.callers && r.thread == s.thread
  {
    match at
    case StopInterrupting => Interrupted(s)
    case CloseInterrupting => Interrupted(s)
    case CloseDevice => s.(did := s.did.(closes := s.did.closes + 1))
    case CloseMarking(result) =>
      s.(closeErr := result, phase := Closed, did := s.did.(closeDones := s.did.closeDones + 1))
    case _ => s
  }

  function Interrupted(s: State): State {
    s.(did := s.did.(interrupts := s.did.interrupts + 1, late := s.did.late || s.did.closes > 0))
  }

  function ProceedAt(s: State, c: nat, err: int): State
    requires c < |s.callers|
  {
    Effect(s, s.callers[c]).(callers := s.callers[c := Next(s, s.callers[c], err)])
  }

  function GoOn(s: State, err: int): (r: State)
    ensures r.callers == s.callers && r.did.closes == s.did.closes && r.did.late == s.did.late
  {
    match s.thread
    case NotBegun => s
    case Starting =>
      s.(did := s.did.(starts := s.did.starts + 1), thread := if err != 0 then StartFailed(err) else Announce)
    case StartFailed(e) => s.(fault := s.fault.(startErr := e), thread := FailureKnown(e))
    case FailureKnown(e) => s.(fault := SetFailure(s.fault, e), thread := Abandoning)
    case Abandoning => s.(did := s.did.(stops := s.did.stops + 1), thread := AnnounceFailed)
    case AnnounceFailed => s.(did := s.did.(startDones := s.did.startDones + 1), thread := Finishing)
    case Announce => s.(did := s.did.(startDones := s.did.startDones + 1), thread := Looping)
    case Looping => s.(fault := SetFailure(s.fault, err), thread := StopDevice)
    case StopDevice =>
      s.(did := s.did.(stops := s.did.stops + 1), fault := SetFailure(s.fault, err), thread := Finishing)
    case Finishing =>
      s.(phase := if s.fault.ready then Failed else Stopped,
         did := s.did.(dones := s.did.dones + 1), thread := Finished)
    case Finished => s
  }

  function Apply(s: State, e: Step): State
    requires Enabled(s, e)
  {
    match e
    case Enter(call) =>
      (match call
       case Start => EnterStart(s)
       case Stop => EnterStop(s)
       case Close => EnterClose(s))
    case Proceed(c, err) => ProceedAt(s, c, err)
    case Go(err) => GoOn(s, err)
  }

  // The state after a schedule; a step that is not enabled is skipped.
  function Run(s: State, steps: seq<Step>): State
    decreases |steps|
  {
    if steps == [] then s
    else if Enabled(s, steps[0]) then Run(Apply(s, steps[0]), steps[1..])
    else Run(s, steps[1..])
  }

  // -- The invariant ----------------------------------------------------------------

  predicate Done(s: State) {
    s.thread.NotBegun? || s.thread.Finished?
  }

  // The thread has asked the device to start, and has called its Stop.
  predicate AskedToStart(t: Thread) {
    !t.NotBegun? && !t.Starting?
  }

  predicate AskedToStop(t: Thread) {
    t.AnnounceFailed? || t.Finishing? || t.Finished?
  }

  predicate Announced(t: Thread) {
    t.Looping? || t.StopDevice? || t.Finishing? || t.Finished?
  }

  ghost predicate ThreadOk(s: State) {
    && (s.started <==> !s.thread.NotBegun?)
    && s.did.starts == (if AskedToStart(s.thread) then 1 else 0)
    && s.did.stops == (if AskedToStop(s.thread) then 1 else 0)
    && s.did.startDones == (if Announced(s.thread) then 1 else 0)
    && s.did.dones == (if s.thread.Finished? then 1 else 0)
    && (s.phase.Opened? || s.phase.Closed? ==> Done(s))
    && (s.phase.Running? || s.phase.Stopping? ==> !Done(s))
    && (s.phase.Stopped? || s.phase.Failed? ==> s.thread.Finished?)
    && (!s.started ==> s.phase.Opened? || s.phase.Closed?)
    && (s.phase.Opened? ==> !s.started)
    && (s.phase.Closed? ==> s.closing)
  }

  // No error can have been recorded yet.
  predicate Early(t: Thread) {
    || t.NotBegun? || t.Starting? || t.Announce? || t.Looping?
    || t.StartFailed? || t.FailureKnown?
  }

  ghost predicate FailureOk(s: State) {
    && (s.fault.ready <==> s.fault.errors != [])
    && (s.fault.ready ==> s.fault.failure == s.fault.errors[0])
    && (s.phase.Stopped? ==> !s.fault.ready)
    && (s.phase.Failed? ==> s.fault.ready)
    && (match s.thread
        case StartFailed(e) => e != 0
        case FailureKnown(e) => e != 0 && s.fault.startErr == e
        case Looping => s.fault.startErr == 0
        case StopDevice => s.fault.startErr == 0
        case Announce => s.fault.startErr == 0
        case Starting => s.fault.startErr == 0
        case NotBegun => s.fault.startErr == 0
        case _ => true)
    && (s.fault.startErr != 0 ==> s.thread.FailureKnown? || (s.fault.ready && s.fault.failure == s.fault.startErr))
    && (Early(s.thread) ==> s.fault.errors == [])
  }

  predicate Owes(at: Caller) {
    at.StopInterrupting? || at.CloseInterrupting?
  }

  predicate Closing(at: Caller) {
    at.CloseInterrupting? || at.CloseWaiting? || at.CloseDevice? || at.CloseMarking?
  }

  // What a caller's place says about the shared state.
  ghost predicate CallerAt(s: State, c: nat)
    requires c < |s.callers|
  {
    var at := s.callers[c];
    && (Owes(at) ==> c == s.owner && s.did.interrupts == 0 && s.interrupt)
    && (Closing(at) ==> s.closing && c == s.closer)
    && (match at
        case StartWaiting => s.started
        case StartReading => s.did.startDones > 0
        case StopInterrupting => s.started && s.stopRequested
        case StopWaiting => s.started && s.stopRequested
        case StopRefused => s.closing
        case CloseInterrupting => s.started && s.stopRequested
        case CloseWaiting => s.started && (s.stopRequested || s.thread.Finished?)
        case CloseDevice => Done(s)
        case CloseMarking(_) => Done(s)
        case CloseFollowing => s.closing
        case CloseReading => s.did.closeDones > 0
        case Returned(call, result) =>
          && (call.Stop? && result == 0 ==> s.thread.Finished?)
          && (call.Close? ==> s.phase.Closed? && result == s.closeErr)
          && (call.Start? && result != ERR_STATE ==> s.did.startDones > 0 && result == s.fault.startErr))
  }

  ghost predicate CallersOk(s: State) {
    forall c {:trigger s.callers[c]} :: 0 <= c < |s.callers| ==> CallerAt(s, c)
  }

  // The closing of the stream is where its one closer is.
  ghost predicate CloserOk(s: State) {
    && s.did.interrupts <= 1 && (s.did.interrupts == 1 ==> s.interrupt)
    && (s.interrupt ==> s.started)
    && (!s.closing ==> s.did.closes == 0 && s.did.closeDones == 0)
    && (s.closing ==>
          && s.closer < |s.callers|
          && var at := s.callers[s.closer];
             && (Closing(at) || at == Returned(Close, s.closeErr))
             && s.did.closes == (if at.CloseMarking? || at.Returned? then 1 else 0)
             && s.did.closeDones == (if at.Returned? then 1 else 0)
             && (s.phase.Closed? <==> at.Returned?))
  }

  ghost predicate Inv(s: State) {
    ThreadOk(s) && FailureOk(s) && CallersOk(s) && CloserOk(s)
  }

  lemma ThreadEnter(s: State, call: Call)
    requires Inv(s)
    ensures ThreadOk(Apply(s, Enter(call)))
  {
    hide GoOn, ProceedAt, FailureOk, CallersOk;
  }

  lemma ThreadProceed(s: State, c: nat, err: int)
    requires Inv(s) && Enabled(s, Proceed(c, err))
    ensures ThreadOk(Apply(s, Proceed(c, err)))
  {
    assert CallerAt(s, c);
    hide GoOn, EnterStart, EnterStop, EnterClose, FailureOk, CallersOk, Next;
  }

  lemma ThreadGo(s: State, err: int)
    requires Inv(s) && Enabled(s, Go(err))
    ensures ThreadOk(Apply(s, Go(err)))
  {
    hide ProceedAt, EnterStart, EnterStop, EnterClose, FailureOk, CallersOk, CloserOk;
  }

  lemma ThreadKept(s: State, e: Step)
    requires Inv(s) && Enabled(s, e)
    ensures ThreadOk(Apply(s, e))
  {
    hide Apply, Enabled, ThreadOk;
    match e
    case Enter(call) => ThreadEnter(s, call);
    case Proceed(c, err) => ThreadProceed(s, c, err);
    case Go(err) => ThreadGo(s, err);
  }

  lemma FailureEnter(s: State, call: Call)
    requires Inv(s)
    ensures FailureOk(Apply(s, Enter(call)))
  {
    hide GoOn, ProceedAt, CallersOk, CloserOk;
  }

  lemma FailureProceed(s: State, c: nat, err: int)
    requires Inv(s) && Enabled(s, Proceed(c, err))
    ensures FailureOk(Apply(s, Proceed(c, err)))
  {
    assert CallerAt(s, c);
    hide GoOn, EnterStart, EnterStop, EnterClose, CallersOk, CloserOk, Next;
  }

  lemma FailureGo(s: State, err: int)
    requires Inv(s) && Enabled(s, Go(err))
    ensures FailureOk(Apply(s, Go(err)))
  {
    hide ProceedAt, EnterStart, EnterStop, EnterClose, CallersOk, CloserOk, SetFailure;
    FirstStays(s.fault, err);
    if s.thread.FailureKnown? { FirstStays(s.fault, s.thread.err); }
  }

  lemma FirstStays(f: Fault, err: int)
    requires (f.ready <==> f.errors != []) && (f.ready ==> f.failure == f.errors[0])
    ensures var r := SetFailure(f, err);
            && (r.ready <==> r.errors != []) && (r.ready ==> r.failure == r.errors[0])
            && r.startErr == f.startErr && (f.ready ==> r.ready && r.failure == f.failure)
            && (!f.ready && err != 0 ==> r.ready && r.failure == err) && (err == 0 ==> r == f)
  {}

  lemma FailureKept(s: State, e: Step)
    requires Inv(s) && Enabled(s, e)
    ensures FailureOk(Apply(s, e))
  {
    hide Apply, Enabled, FailureOk;
    match e
    case Enter(call) => FailureEnter(s, call);
    case Proceed(c, err) => FailureProceed(s, c, err);
    case Go(err) => FailureGo(s, err);
  }

  // A caller that takes no step keeps its place.
  lemma OthersEnter(s: State, call: Call, c: nat)
    requires Inv(s) && c < |s.callers|
    ensures c < |Apply(s, Enter(call)).callers| && CallerAt(Apply(s, Enter(call)), c)
  {
    assert CallerAt(s, c);
    hide GoOn, ProceedAt, CallersOk, FailureOk;
  }

  lemma OthersProceed(s: State, c: nat, err: int, o: nat)
    requires Inv(s) && Enabled(s, Proceed(c, err)) && o < |s.callers| && o != c
    ensures o < |Apply(s, Proceed(c, err)).callers| && CallerAt(Apply(s, Proceed(c, err)), o)
  {
    assert CallerAt(s, c) && CallerAt(s, o);
    hide Next, GoOn, EnterStart, EnterStop, EnterClose, CallersOk, FailureOk;
  }

  lemma OthersGo(s: State, err: int, c: nat)
    requires Inv(s) && Enabled(s, Go(err)) && c < |s.callers|
    ensures c < |Apply(s, Go(err)).callers| && CallerAt(Apply(s, Go(err)), c)
  {
    assert CallerAt(s, c);
    hide ProceedAt, EnterStart, EnterStop, EnterClose, CallersOk;
  }

  lemma EnteredOk(s: State, call: Call)
    requires Inv(s)
    ensures CallerAt(Apply(s, Enter(call)), |s.callers|)
  {
    hide CallersOk, GoOn, ProceedAt, FailureOk;
  }

  lemma MovedOk(s: State, c: nat, err: int)
    requires Inv(s) && Enabled(s, Proceed(c, err))
    ensures c < |Apply(s, Proceed(c, err)).callers| && CallerAt(Apply(s, Proceed(c, err)), c)
  {
    assert CallerAt(s, c);
    hide CallersOk, GoOn, EnterStart, EnterStop, EnterClose, FailureOk;
  }

  lemma CallersKept(s: State, e: Step)
    requires Inv(s) && Enabled(s, e)
    ensures CallersOk(Apply(s, e))
  {
    hide CallerAt, Inv, Apply, Enabled;
    var s' := Apply(s, e);
    CallersGrow(s, e);
    forall c | 0 <= c < |s'.callers| ensures CallerAt(s', c) {
      match e
      case Enter(call) => if c == |s.callers| { EnteredOk(s, call); } else { OthersEnter(s, call, c); }
      case Proceed(o, err) => if c == o { MovedOk(s, c, err); } else { OthersProceed(s, o, err, c); }
      case Go(err) => OthersGo(s, err, c);
    }
  }

  lemma CallersGrow(s: State, e: Step)
    requires Enabled(s, e)
    ensures |Apply(s, e).callers| == |s.callers| + (if e.Enter? then 1 else 0)
  {
    hide GoOn, Effect, Next;
  }

  lemma CloserEnter(s: State, call: Call)
    requires Inv(s)
    ensures CloserOk(Apply(s, Enter(call)))
  {
    hide GoOn, ProceedAt, FailureOk, CallersOk;
  }

  lemma CloserProceed(s: State, c: nat, err: int)
    requires Inv(s) && Enabled(s, Proceed(c, err))
    ensures CloserOk(Apply(s, Proceed(c, err)))
  {
    assert CallerAt(s, c);
    hide GoOn, EnterStart, EnterStop, EnterClose, FailureOk, CallersOk;
  }

  lemma CloserGo(s: State, err: int)
    requires Inv(s) && Enabled(s, Go(err))
    ensures CloserOk(Apply(s, Go(err)))
  {
    hide ProceedAt, EnterStart, EnterStop, EnterClose, FailureOk, CallersOk;
  }

  lemma CloserKept(s: State, e: Step)
    requires Inv(s) && Enabled(s, e)
    ensures CloserOk(Apply(s, e))
  {
    hide Apply, Enabled, CloserOk;
    match e
    case Enter(call) => CloserEnter(s, call);
    case Proceed(c, err) => CloserProceed(s, c, err);
    case Go(err) => CloserGo(s, err);
  }

  lemma {:induction false} InvAlways(s: State, steps: seq<Step>)
    requires Inv(s)
    ensures Inv(Run(s, steps))
    decreases |steps|
  {
    hide ThreadOk, FailureOk, CallersOk, CloserOk, Apply, Enabled;
    if steps != [] {
      var e := steps[0];
      if Enabled(s, e) {
        ThreadKept(s, e);
        FailureKept(s, e);
        CallersKept(s, e);
        CloserKept(s, e);
        InvAlways(Apply(s, e), steps[1..]);
      } else {
        InvAlways(s, steps[1..]);
      }
    }
  }

  lemma InvReached(steps: seq<Step>)
    ensures Inv(Run(Initial(), steps))
  {
    InvAlways(Initial(), steps);
  }

  // -- What holds after every schedule ---------------------------------------------------

  // No device operation and no close of a channel ever happens twice.
  lemma OncePerDevice(steps: seq<Step>)
    ensures var s := Run(Initial(), steps);
            && s.did.starts <= 1 && s.did.stops <= 1 && s.did.interrupts <= 1 && s.did.closes <= 1
            && s.did.startDones <= 1 && s.did.dones <= 1 && s.did.closeDones <= 1
  {
    hide Run, FailureOk, CallersOk;
    InvReached(steps);
  }

  // The device is closed only when the stream thread never began or has finished,
  // and it never begins afterwards; a device asked to start has been stopped by then.
  lemma ClosedAfterThread(steps: seq<Step>)
    ensures var s := Run(Initial(), steps);
            && (s.did.closes > 0 ==> Done(s) && s.did.starts == s.did.stops)
            && (forall c :: 0 <= c < |s.callers| && s.callers[c].CloseDevice? ==> Done(s) && s.did.closes == 0)
  {
    hide Run, FailureOk;
    InvReached(steps);
    var s := Run(Initial(), steps);
    if s.closing { assert CallerAt(s, s.closer); }
    forall c | 0 <= c < |s.callers| && s.callers[c].CloseDevice? ensures Done(s) && s.did.closes == 0 {
      assert CallerAt(s, c);
    }
  }

  // What a returned call may rely on: after a nil from Stop the thread has
  // finished; Start reports the device's own answer, which if an error is the
  // failure the stream keeps; every Close that returns
  // reports the same error, on a stream that is closed.
  lemma ReturnsMean(steps: seq<Step>, c: nat)
    requires c < |Run(Initial(), steps).callers|
    ensures var s := Run(Initial(), steps);
            && (s.callers[c] == Returned(Stop, 0) ==> s.thread.Finished? && s.did.stops == 1)
            && (s.callers[c].Returned? && s.callers[c].call.Start? && s.callers[c].result != ERR_STATE ==>
                  && s.did.starts == 1 && s.callers[c].result == s.fault.startErr
                  && (s.fault.startErr != 0 ==> s.fault.ready && s.fault.failure == s.fault.startErr))
            && (s.callers[c].Returned? && s.callers[c].call.Close? ==>
                  s.phase.Closed? && s.did.closes == 1 && s.callers[c].result == s.closeErr)
  {
    hide Run;
    InvReached(steps);
    assert CallerAt(Run(Initial(), steps), c);
  }

  // The failure a stream reports is the first the thread met, and a finished
  // stream is failed exactly when there was one.
  lemma FirstFailure(steps: seq<Step>)
    ensures var s := Run(Initial(), steps);
            && (s.fault.ready <==> s.fault.errors != []) && (s.fault.ready ==> s.fault.failure == s.fault.errors[0])
            && (s.phase.Failed? ==> s.fault.errors != []) && (s.phase.Stopped? ==> s.fault.errors == [])
  {
    hide Run, ThreadOk, CallersOk, CloserOk;
    InvReached(steps);
  }

  // Closed is final, whatever is called after it: no device operation but the
  // Interrupt some Stop still owes can follow.
  lemma {:induction false} ClosedIsFinal(s: State, steps: seq<Step>)
    requires Inv(s) && s.phase.Closed?
    ensures var r := Run(s, steps);
            && r.phase.Closed? && r.closeErr == s.closeErr
            && r.did.starts == s.did.starts && r.did.stops == s.did.stops && r.did.closes == s.did.closes && r.thread == s.thread
    decreases |steps|
  {
    hide ThreadOk, FailureOk, CallersOk, CloserOk, Apply, Enabled;
    if steps != [] {
      var e := steps[0];
      if Enabled(s, e) {
        ThreadKept(s, e);
        FailureKept(s, e);
        CallersKept(s, e);
        CloserKept(s, e);
        ClosedStep(s, e);
        ClosedIsFinal(Apply(s, e), steps[1..]);
      } else {
        ClosedIsFinal(s, steps[1..]);
      }
    }
  }

  lemma ClosedStep(s: State, e: Step)
    requires Inv(s) && s.phase.Closed? && Enabled(s, e)
    ensures var r := Apply(s, e);
            && r.phase.Closed? && r.closeErr == s.closeErr
            && r.did.starts == s.did.starts && r.did.stops == s.did.stops && r.did.closes == s.did.closes && r.thread == s.thread
  {
    hide FailureOk;
    if e.Proceed? {
      assert CallerAt(s, e.c);
    }
    hide CallersOk;
  }

  // -- No caller is left waiting ------------------------------------------------------------

  // A caller that waits always waits for somebody who can move: while any call is
  // unfinished, a caller in it or the stream thread has a step.
  lemma NoDeadlock(steps: seq<Step>, c: nat)
    requires c < |Run(Initial(), steps).callers|
    requires var at := Run(Initial(), steps).callers[c]; !at.Returned?
    ensures var s := Run(Initial(), steps);
            Enabled(s, Proceed(c, 0)) || Enabled(s, Go(0)) || Enabled(s, Proceed(s.closer, 0))
  {
    hide Run, FailureOk;
    InvReached(steps);
    var s := Run(Initial(), steps);
    assert CallerAt(s, c);
    if s.closing { assert CallerAt(s, s.closer); }
    hide CallersOk;
  }

  // -- An Interrupt after the device was closed ------------------------------------------------

  // Stop calls Interrupt outside the mutex, so a Close may overtake it. Here the
  // device is closed, and then interrupted.
  lemma InterruptAfterClose()
    ensures exists steps :: Run(Initial(), steps).did.late
  {
    var s0 := Initial();
    var s1 := Apply(s0, Enter(Start));
    var s2 := Apply(s1, Go(0));
    var s3 := Apply(s2, Go(0));
    var s4 := Apply(s3, Enter(Stop));
    assert s4.stopRequested && s4.thread.Looping? && s4.callers == [StartWaiting, StopInterrupting];
    var l4 := Overtaken(s4);
    var l3 := Back(s3, Enter(Stop), l4);
    var l2 := Back(s2, Go(0), l3);
    var l1 := Back(s1, Go(0), l2);
    var l0 := Back(s0, Enter(Start), l1);
    assert Run(s0, l0).did.late;
  }

  // The thread sees the stop and finishes, a Close runs to the device, and only
  // then the Stop interrupts it.
  lemma Overtaken(s4: State) returns (l4: seq<Step>)
    requires s4.phase.Stopping? && s4.started && !s4.closing && s4.stopRequested && s4.thread.Looping?
    requires s4.callers == [StartWaiting, StopInterrupting] && !s4.fault.ready
    ensures Run(s4, l4).did.late
  {
    var s5 := Apply(s4, Go(0));
    var s6 := Apply(s5, Go(0));
    var s7 := Apply(s6, Go(0));
    var s8 := Apply(s7, Enter(Close));
    var s9 := Apply(s8, Proceed(2, 0));
    var s10 := Apply(s9, Proceed(2, 0));
    var l10 := Back(s10, Proceed(1, 0), []);
    var l9 := Back(s9, Proceed(2, 0), l10);
    var l8 := Back(s8, Proceed(2, 0), l9);
    var l7 := Back(s7, Enter(Close), l8);
    var l6 := Back(s6, Go(0), l7);
    var l5 := Back(s5, Go(0), l6);
    l4 := Back(s4, Go(0), l5);
  }

  lemma Back(s: State, e: Step, steps: seq<Step>) returns (all: seq<Step>)
    requires Enabled(s, e)
    ensures Run(s, all) == Run(Apply(s, e), steps)
  {
    all := [e] + steps;
    assert all[1..] == steps;
  }

  // Exactly when: at the moment the device is closed, an Interrupt can still
  // reach it later if and only if some Stop is between leaving the mutex and its
  // call of Interrupt.
  lemma LateExactly(s: State, c: nat, err: int)
    requires Inv(s) && !s.did.late && Enabled(s, Proceed(c, err)) && s.callers[c].CloseDevice?
    ensures (exists steps :: Run(Apply(s, Proceed(c, err)), steps).did.late) <==>
              (exists i :: 0 <= i < |s.callers| && s.callers[i].StopInterrupting?)
  {
    hide Run, Inv;
    var s' := Apply(s, Proceed(c, err));
    KeptByStep(s, Proceed(c, err));
    if i :| 0 <= i < |s.callers| && s.callers[i].StopInterrupting? {
      LateRun(s', i);
    } else {
      Nobody(s, c);
      StillNobody(s, Proceed(c, err));
      forall steps ensures !Run(s', steps).did.late {
        NeverLate(s', steps);
      }
    }
  }

  lemma LateRun(s: State, i: nat)
    requires i < |s.callers| && s.callers[i].StopInterrupting? && s.did.closes > 0
    ensures Run(s, [Proceed(i, 0)]).did.late
  {
    assert [Proceed(i, 0)][1..] == [];
  }

  lemma Nobody(s: State, c: nat)
    requires Inv(s) && c < |s.callers| && s.callers[c].CloseDevice?
    requires forall i :: 0 <= i < |s.callers| ==> !s.callers[i].StopInterrupting?
    ensures s.closing && forall i :: 0 <= i < |s.callers| ==> !Owes(s.callers[i])
  {
    assert CallerAt(s, c);
    forall i | 0 <= i < |s.callers| ensures !Owes(s.callers[i]) {
      assert CallerAt(s, i);
    }
  }

  lemma KeptByStep(s: State, e: Step)
    requires Inv(s) && Enabled(s, e)
    ensures Inv(Apply(s, e))
  {
    hide ThreadOk, FailureOk, CallersOk, CloserOk, Apply, Enabled;
    ThreadKept(s, e);
    FailureKept(s, e);
    CallersKept(s, e);
    CloserKept(s, e);
  }

  lemma {:induction false} NeverLate(s: State, steps: seq<Step>)
    requires Inv(s) && s.closing && !s.did.late && forall i :: 0 <= i < |s.callers| ==> !Owes(s.callers[i])
    ensures !Run(s, steps).did.late
    decreases |steps|
  {
    hide Inv, Apply, Enabled;
    if steps != [] {
      var e := steps[0];
      if Enabled(s, e) {
        KeptByStep(s, e);
        StillNobody(s, e);
        NeverLate(Apply(s, e), steps[1..]);
      } else {
        NeverLate(s, steps[1..]);
      }
    }
  }

  lemma StillNobody(s: State, e: Step)
    requires s.closing && !s.did.late && Enabled(s, e)
    requires forall i :: 0 <= i < |s.callers| ==> !Owes(s.callers[i])
    ensures var r := Apply(s, e);
            && r.closing && !r.did.late && forall i :: 0 <= i < |r.callers| ==> !Owes(r.callers[i])
  {}

  predicate ClosesDevice(s: State, e: Step) {
    e.Proceed? && e.c < |s.callers| && s.callers[e.c].CloseDevice?
  }

  // Some Stop has left the mutex and not called Interrupt yet.
  predicate StopOwes(s: State) {
    exists i :: 0 <= i < |s.callers| && s.callers[i].StopInterrupting?
  }

  // Where the run closes the device, no Stop owes it an Interrupt.
  ghost predicate ClosesAlone(s: State, steps: seq<Step>)
    decreases |steps|
  {
    steps == [] ||
    (if !Enabled(s, steps[0]) then ClosesAlone(s, steps[1..])
     else if ClosesDevice(s, steps[0]) then !StopOwes(s)
     else ClosesAlone(Apply(s, steps[0]), steps[1..]))
  }

  // Over runs: once a run has closed the device, an Interrupt reaches it then or
  // later if and only if some Stop owed its Interrupt where it was closed. So a
  // Close that no Stop runs beside is never overtaken.
  lemma OvertakenExactly(steps: seq<Step>)
    requires Run(Initial(), steps).did.closes > 0
    ensures (exists more :: Run(Run(Initial(), steps), more).did.late) <==> !ClosesAlone(Initial(), steps)
  {
    hide Run, Inv, ClosesAlone;
    var r := Run(Initial(), steps);
    InvReached(steps);
    InvReached([]);
    RunNone(Initial());
    ClosedRun(Initial(), steps);
    if ClosesAlone(Initial(), steps) {
      forall more ensures !Run(r, more).did.late {
        NeverLate(r, more);
      }
    } else if r.did.late {
      RunNone(r);
      assert Run(r, []).did.late;
    } else {
      var i :| 0 <= i < |r.callers| && r.callers[i].StopInterrupting?;
      LateRun(r, i);
    }
  }

  lemma RunNone(s: State)
    ensures Run(s, []) == s
  {}

  // Nobody can interrupt the device any more, and nobody did too late.
  ghost predicate Settled(s: State) {
    s.closing && !s.did.late && forall i :: 0 <= i < |s.callers| ==> !Owes(s.callers[i])
  }

  // The device is closed, and an Interrupt came after that or is still owed.
  ghost predicate Late(s: State) {
    s.did.closes > 0 && (s.did.late || StopOwes(s))
  }

  lemma {:induction false} ClosedRun(s: State, steps: seq<Step>)
    requires Inv(s) && !s.did.late && s.did.closes == 0
    ensures var r := Run(s, steps);
            && (ClosesAlone(s, steps) && r.did.closes > 0 ==> Settled(r))
            && (!ClosesAlone(s, steps) ==> Late(r))
    decreases |steps|
  {
    hide Inv, Apply, Enabled, ClosesDevice, StopOwes, Settled, Late;
    if steps != [] {
      var e, rest := steps[0], steps[1..];
      if !Enabled(s, e) {
        ClosedRun(s, rest);
      } else {
        KeptByStep(s, e);
        if ClosesDevice(s, e) {
          DeviceCloses(s, e);
          if StopOwes(s) { OvertakenRun(Apply(s, e), rest); } else { SettledRun(Apply(s, e), rest); }
        } else {
          DeviceOpen(s, e);
          ClosedRun(Apply(s, e), rest);
        }
      }
    }
  }

  lemma DeviceCloses(s: State, e: Step)
    requires Inv(s) && !s.did.late && Enabled(s, e) && ClosesDevice(s, e)
    ensures if StopOwes(s) then Late(Apply(s, e)) else Settled(Apply(s, e))
  {
    hide Inv;
    if StopOwes(s) {
      var i :| 0 <= i < |s.callers| && s.callers[i].StopInterrupting?;
      assert Apply(s, e).callers[i].StopInterrupting?;
    } else {
      Nobody(s, e.c);
      StillNobody(s, e);
    }
  }

  lemma DeviceOpen(s: State, e: Step)
    requires !s.did.late && s.did.closes == 0 && Enabled(s, e) && !ClosesDevice(s, e)
    ensures !Apply(s, e).did.late && Apply(s, e).did.closes == 0
  {
    hide Next, GoOn, EnterStart, EnterStop, EnterClose;
  }

  lemma {:induction false} SettledRun(s: State, steps: seq<Step>)
    requires Settled(s)
    ensures Settled(Run(s, steps))
    decreases |steps|
  {
    hide Apply, Enabled;
    if steps != [] {
      if Enabled(s, steps[0]) {
        StillNobody(s, steps[0]);
        SettledRun(Apply(s, steps[0]), steps[1..]);
      } else {
        SettledRun(s, steps[1..]);
      }
    }
  }

  lemma {:induction false} OvertakenRun(s: State, steps: seq<Step>)
    requires Late(s)
    ensures Late(Run(s, steps))
    decreases |steps|
  {
    hide Apply, Enabled, Late;
    if steps != [] {
      if Enabled(s, steps[0]) {
        OvertakenStep(s, steps[0]);
        OvertakenRun(Apply(s, steps[0]), steps[1..]);
      } else {
        OvertakenRun(s, steps[1..]);
      }
    }
  }

  lemma OvertakenStep(s: State, e: Step)
    requires Late(s) && Enabled(s, e)
    ensures Late(Apply(s, e))
  {
    hide Apply, Enabled;
    DidGrows(s, e);
    if !s.did.late {
      var i :| 0 <= i < |s.callers| && s.callers[i].StopInterrupting?;
      if e.Proceed? && e.c == i {
        InterruptsLate(s, e);
      } else {
        CallerStays(s, e, i);
        assert Apply(s, e).callers[i].StopInterrupting?;
      }
    }
  }

  lemma DidGrows(s: State, e: Step)
    requires Enabled(s, e)
    ensures Apply(s, e).did.closes >= s.did.closes && (s.did.late ==> Apply(s, e).did.late)
  {
    hide Next, GoOn, EnterStart, EnterStop, EnterClose;
  }

  lemma CallerStays(s: State, e: Step, i: nat)
    requires Enabled(s, e) && i < |s.callers| && !(e.Proceed? && e.c == i)
    ensures i < |Apply(s, e).callers| && Apply(s, e).callers[i] == s.callers[i]
  {
    hide Next, Effect, GoOn;
  }

  lemma InterruptsLate(s: State, e: Step)
    requires Enabled(s, e) && e.Proceed? && s.callers[e.c].StopInterrupting? && s.did.closes > 0
    ensures Apply(s, e).did.late
  {
    hide Next;
  }
}
