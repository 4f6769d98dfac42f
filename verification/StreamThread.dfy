/**
 The stream thread whole: its loop, step by step, among the calls of Start, Stop and
 Close. Each load of the stop flag is a step of its own, and so is what the device
 answers in between.
 */
module StreamThread {
  import L = Lifecycle
  import opened StreamLoop

  // Where the loop is.
  datatype LoopAt =
    | Entering                                // about to read the dropout counter
    | Top                                     // about to load the stop flag
    | Waiting                                 // in the device's Wait
    | Woken(wait: Waited, counter: Counter)   // about to load the stop flag again
    | Working(wait: Waited, counter: Counter) // past it
    | Over

  datatype State = State(
    life: L.State, at: LoopAt, last: Counter,
    // History: the counter the loop began with, the rounds it played, how it ended.
    first: Counter, rounds: seq<Round>, end: End)

  // What the rest of a round brings.
  datatype Work = Work(
    recoverErr: int, decodeErr: int, panics: bool, encodeErr: int, commit: Committed, commitCounter: Counter)

  const NOTHING := Work(0, 0, false, 0, Accepted, 0)

  datatype Step =
    | Life(e: L.Step)
    | ReadCounter(n: Counter) | LoadAtTop | WaitReturns(wait: Waited, counter: Counter) | LoadStop
    | Rest(work: Work)

  function Initial(): State {
    State(L.Initial(), Entering, 0, 0, [], Running)
  }

  predicate Enabled(s: State, e: Step) {
    match e
    case Life(l) => L.Enabled(s.life, l) && !(l.Go? && s.life.thread.Looping?)
    case ReadCounter(_) => s.life.thread.Looping? && s.at.Entering?
    case LoadAtTop => s.life.thread.Looping? && s.at.Top?
    case WaitReturns(_, _) => s.life.thread.Looping? && s.at.Waiting?
    case LoadStop => s.life.thread.Looping? && s.at.Woken?
    case Rest(_) => s.life.thread.Looping? && s.at.Working?
  }

  // A round past the top, with what its later load of the flag found.
  function RoundOf(wait: Waited, counter: Counter, stop: bool, w: Work): Round {
    Round(false, wait, counter, stop, stop, w.recoverErr, w.decodeErr, w.panics, w.encodeErr, w.commit, w.commitCounter)
  }

  const STOPPED_AT_TOP := RoundOf(Ready, 0, false, NOTHING).(stopAtTop := true)

  // A round is over, and the loop with it unless it goes on.
  function Passed(s: State, r: Round): State {
    var p := Play(r, s.last);
    var s' := s.(last := p.last, rounds := s.rounds + [r], end := p.end);
    match p.end
    case Running => s'.(at := Top)
    case StopSeen => s'.(at := Over, life := L.GoOn(s.life, 0))
    case Failed(err) => s'.(at := Over, life := L.GoOn(s.life, err))
  }

  function Apply(s: State, e: Step): State
    requires Enabled(s, e)
  {
    match e
    case Life(l) => s.(life := L.Apply(s.life, l))
    case ReadCounter(n) => s.(at := Top, first := n, last := n)
    case LoadAtTop => if s.life.stopRequested then Passed(s, STOPPED_AT_TOP) else s.(at := Waiting)
    // The flag is loaded again after a wait that was interrupted, and before a callback.
    case WaitReturns(wait, counter) =>
      s.(at := if wait.WaitInterrupted? || wait.Ready? then Woken(wait, counter) else Working(wait, counter))
    case LoadStop =>
      if s.life.stopRequested then Passed(s, RoundOf(s.at.wait, s.at.counter, true, NOTHING))
      else s.(at := Working(s.at.wait, s.at.counter))
    case Rest(w) => Passed(s, RoundOf(s.at.wait, s.at.counter, false, w))
  }

  function Run(s: State, steps: seq<Step>): State
    decreases |steps|
  {
    if steps == [] then s
    else if Enabled(s, steps[0]) then Run(Apply(s, steps[0]), steps[1..])
    else Run(s, steps[1..])
  }

  // -- The calls see an ordinary stream thread --------------------------------------------------

  // What a step is to the callers: the end of the loop is one of the thread's.
  function Seen(s: State, e: Step): seq<L.Step>
    requires Enabled(s, e)
  {
    if e.Life? then [e.e]
    else
      var s' := Apply(s, e);
      if !s'.at.Over? then [] else [L.Go(if s'.end.Failed? then s'.end.err else 0)]
  }

  function AllSeen(s: State, steps: seq<Step>): seq<L.Step>
    decreases |steps|
  {
    if steps == [] then []
    else if Enabled(s, steps[0]) then Seen(s, steps[0]) + AllSeen(Apply(s, steps[0]), steps[1..])
    else AllSeen(s, steps[1..])
  }

  lemma {:induction false} LifeJoin(s: L.State, a: seq<L.Step>, b: seq<L.Step>)
    ensures L.Run(s, a + b) == L.Run(L.Run(s, a), b)
    decreases |a|
  {
    hide L.Enabled, L.Apply;
    if a == [] {
      assert a + b == b;
    } else {
      assert (a + b)[1..] == a[1..] + b;
      LifeJoin(if L.Enabled(s, a[0]) then L.Apply(s, a[0]) else s, a[1..], b);
    }
  }

  lemma LifeOne(s: L.State, e: L.Step)
    ensures L.Run(s, [e]) == if L.Enabled(s, e) then L.Apply(s, e) else s
  {
    hide L.Enabled, L.Apply;
    assert [e][1..] == [];
  }

  lemma SeenRun(s: State, e: Step)
    requires Enabled(s, e)
    ensures Apply(s, e).life == L.Run(s.life, Seen(s, e))
  {
    hide Play, L.GoOn, L.EnterStart, L.EnterStop, L.EnterClose, L.ProceedAt;
    var s' := Apply(s, e);
    if e.Life? {
      LifeOne(s.life, e.e);
    } else if s'.at.Over? {
      LifeOne(s.life, L.Go(if s'.end.Failed? then s'.end.err else 0));
      if s'.end == StopSeen { EndsForReason(s, e); }
    } else {
      assert L.Run(s.life, []) == s.life;
    }
  }

  // The loop ends as stopped only where a load found the flag set.
  lemma EndsForReason(s: State, e: Step)
    requires Enabled(s, e) && !e.Life? && Apply(s, e).at.Over? && Apply(s, e).end == StopSeen
    ensures s.life.stopRequested
  {
    hide Play, L.GoOn;
    if e.Rest? { StopInRound(RoundOf(s.at.wait, s.at.counter, false, e.work), s.last); }
  }

  // Whatever the loop does, the rest of the stream is in a state that Lifecycle's
  // thread could bring about, so all that holds there holds here.
  lemma {:induction false} RefinesLifecycle(s: State, steps: seq<Step>)
    ensures Run(s, steps).life == L.Run(s.life, AllSeen(s, steps))
    decreases |steps|
  {
    hide Apply, Enabled, L.Apply, L.Enabled, Seen;
    if steps == [] {
      assert L.Run(s.life, []) == s.life;
    } else if Enabled(s, steps[0]) {
      SeenRun(s, steps[0]);
      LifeJoin(s.life, Seen(s, steps[0]), AllSeen(Apply(s, steps[0]), steps[1..]));
      RefinesLifecycle(Apply(s, steps[0]), steps[1..]);
    } else {
      RefinesLifecycle(s, steps[1..]);
    }
  }

  // -- The invariant ---------------------------------------------------------------------------------

  // The device refused to start, so the loop was never entered.
  predicate Refused(t: L.Thread) {
    t.FailureKnown? || t.Abandoning? || t.AnnounceFailed? || t.Finishing? || t.Finished?
  }

  predicate LoopDone(t: L.Thread) {
    t.StopDevice? || t.Finishing? || t.Finished?
  }

  ghost predicate LoopOk(s: State) {
    var t := Trace(s.rounds, s.first);
    && t.end == s.end
    && (match s.at
        case Entering =>
          && s.rounds == [] && !s.life.thread.StopDevice?
          && (Refused(s.life.thread) ==> s.life.fault.startErr != 0)
        case Over =>
          && LoopDone(s.life.thread) && s.end != Running
          && (s.end.Failed? ==> s.life.fault.ready && s.life.fault.failure == s.end.err)
          && (s.end.StopSeen? ==> s.life.stopRequested)
        case _ => s.life.thread.Looping? && s.end == Running && t.last == s.last)
  }

  ghost predicate Inv(s: State) {
    L.Inv(s.life) && LoopOk(s)
  }

  lemma {:induction false} TraceNext(rounds: seq<Round>, r: Round, first: Counter)
    requires Trace(rounds, first).end == Running
    ensures var (t, p) := (Trace(rounds, first), Play(r, Trace(rounds, first).last));
            Trace(rounds + [r], first) == Played(t.events + p.events, p.last, p.end)
    decreases |rounds|
  {
    hide Play;
    if rounds == [] {
      assert ([] + [r])[0] == r && ([] + [r])[1..] == [];
      var p := Play(r, first);
      assert [] + p.events == p.events && p.events + [] == p.events;
    } else {
      var p := Play(rounds[0], first);
      assert (rounds + [r])[1..] == rounds[1..] + [r];
      TraceNext(rounds[1..], r, p.last);
      var more := Play(r, Trace(rounds[1..], p.last).last).events;
      var rest := Trace(rounds[1..], p.last).events;
      assert p.events + (rest + more) == p.events + rest + more;
    }
  }

  lemma LifeKept(s: L.State, e: L.Step)
    requires L.Inv(s) && L.Enabled(s, e)
    ensures L.Inv(L.Apply(s, e))
  {
    hide L.Inv;
    LifeOne(s, e);
    L.InvAlways(s, [e]);
  }

  // What the loop needs to know of the others' steps.
  ghost predicate Undisturbed(s: L.State, r: L.State) {
    && (s.stopRequested ==> r.stopRequested)
    && (s.thread.Looping? ==> r.thread.Looping?) && (r.thread.StopDevice? ==> s.thread.StopDevice?)
    && (LoopDone(s.thread) ==> LoopDone(r.thread)) && (s.thread.Finished? ==> r.thread.Finished?)
    && (s.fault.ready ==> r.fault.ready && r.fault.failure == s.fault.failure)
    && (Refused(r.thread) && !s.thread.StopDevice? ==>
          r.fault.startErr != 0 || (Refused(s.thread) && r.fault.startErr == s.fault.startErr))
  }

  lemma EnterStep(s: L.State, e: L.Step)
    requires L.Inv(s) && L.Enabled(s, e) && e.Enter?
    ensures Undisturbed(s, L.Apply(s, e))
  {
    hide L.CallersOk, L.CloserOk, L.GoOn, L.ProceedAt;
  }

  lemma CallerStep(s: L.State, e: L.Step)
    requires L.Inv(s) && L.Enabled(s, e) && e.Proceed?
    ensures Undisturbed(s, L.Apply(s, e))
  {
    hide L.Inv, L.GoOn, L.Next, L.EnterStart, L.EnterStop, L.EnterClose;
  }

  lemma ThreadStep(s: L.State, e: L.Step)
    requires L.Inv(s) && L.Enabled(s, e) && e.Go? && !s.thread.Looping?
    ensures Undisturbed(s, L.Apply(s, e))
  {
    hide L.CallersOk, L.CloserOk, L.EnterStart, L.EnterStop, L.EnterClose, L.ProceedAt;
  }

  lemma LifeStep(s: L.State, e: L.Step)
    requires L.Inv(s) && L.Enabled(s, e) && !(e.Go? && s.thread.Looping?)
    ensures Undisturbed(s, L.Apply(s, e))
  {
    hide L.Inv, L.Apply, L.Enabled, Undisturbed;
    match e
    case Enter(_) => EnterStep(s, e);
    case Proceed(_, _) => CallerStep(s, e);
    case Go(_) => ThreadStep(s, e);
  }

  lemma PassedKept(s: State, r: Round)
    requires Inv(s) && s.life.thread.Looping? && !s.at.Entering? && !s.at.Over?
    requires FindsStop(r) ==> s.life.stopRequested
    ensures Inv(Passed(s, r))
  {
    hide Play, L.CallersOk, L.ThreadOk, L.CloserOk;
    TraceNext(s.rounds, r, s.first);
    StopInRound(r, s.last);
    var p := Play(r, s.last);
    if p.end != Running {
      LifeKept(s.life, L.Go(if p.end.Failed? then p.end.err else 0));
    }
  }

  lemma InvKept(s: State, e: Step)
    requires Inv(s) && Enabled(s, e)
    ensures Inv(Apply(s, e))
  {
    hide L.Inv, L.Enabled, L.Apply, L.GoOn, Play, Passed;
    match e
    case Life(l) =>
      LifeKept(s.life, l);
      LifeStep(s.life, l);
    case LoadAtTop => if s.life.stopRequested { PassedKept(s, STOPPED_AT_TOP); }
    case LoadStop => if s.life.stopRequested { PassedKept(s, RoundOf(s.at.wait, s.at.counter, true, NOTHING)); }
    case Rest(w) => PassedKept(s, RoundOf(s.at.wait, s.at.counter, false, w));
    case _ =>
  }

  lemma {:induction false} InvAlways(s: State, steps: seq<Step>)
    requires Inv(s)
    ensures Inv(Run(s, steps))
    decreases |steps|
  {
    hide Inv, Apply, Enabled;
    if steps != [] {
      if Enabled(s, steps[0]) {
        InvKept(s, steps[0]);
        InvAlways(Apply(s, steps[0]), steps[1..]);
      } else {
        InvAlways(s, steps[1..]);
      }
    }
  }

  lemma InvReached(steps: seq<Step>)
    ensures Inv(Run(Initial(), steps))
  {
    hide Run;
    L.InvReached([]);
    assert L.Run(L.Initial(), []) == L.Initial();
    InvAlways(Initial(), steps);
  }

  // -- What holds after every schedule ---------------------------------------------------------------

  // The rounds played are a run of the loop's specification, under way or ended as it
  // ends; and the failure the stream keeps from then on is the one the loop ended with,
  // while an end without one followed a request to stop.
  lemma LoopAndLife(steps: seq<Step>)
    ensures var s := Run(Initial(), steps);
            && Trace(s.rounds, s.first).end == s.end
            && (s.at.Over? <==> s.end != Running)
            && (s.end.Failed? ==> s.life.fault.ready && s.life.fault.failure == s.end.err)
            && (s.end.StopSeen? ==> s.life.stopRequested)
            && (s.life.phase.Failed? && s.end == Running ==> s.life.fault.failure == s.life.fault.startErr != 0)
  {
    hide Run, L.CallersOk, L.CloserOk;
    InvReached(steps);
  }

  // What the loop has done so far.
  function Events(s: State): seq<Event> {
    Trace(s.rounds, s.first).events
  }

  lemma FinishedStep(s: State, e: Step)
    requires Inv(s) && Enabled(s, e) && s.life.thread.Finished?
    ensures var r := Apply(s, e);
            r.life.thread.Finished? && r.at == s.at && r.rounds == s.rounds && r.first == s.first && r.end == s.end
  {
    hide L.Apply, L.Inv, Passed;
    if e.Life? { LifeStep(s.life, e.e); }
  }

  // Once a Stop returned nil the loop is over, if it was ever entered, and whatever is
  // called afterwards there is never another callback.
  lemma {:induction false} NothingAfterFinish(s: State, steps: seq<Step>)
    requires Inv(s) && s.life.thread.Finished?
    ensures var r := Run(s, steps); r.life.thread.Finished? && Events(r) == Events(s) && r.at == s.at
    decreases |steps|
  {
    hide Inv, Apply, Enabled;
    if steps != [] {
      if Enabled(s, steps[0]) {
        InvKept(s, steps[0]);
        FinishedStep(s, steps[0]);
        NothingAfterFinish(Apply(s, steps[0]), steps[1..]);
      } else {
        NothingAfterFinish(s, steps[1..]);
      }
    }
  }

  lemma NothingAfterStop(steps: seq<Step>, more: seq<Step>, c: nat)
    requires var s := Run(Initial(), steps);
             c < |s.life.callers| && s.life.callers[c] == L.Returned(L.Stop, 0)
    ensures var s := Run(Initial(), steps);
            && Events(Run(s, more)) == Events(s)
            && (s.at.Over? || (s.at.Entering? && s.life.fault.startErr != 0))
  {
    hide Run, L.ThreadOk, L.FailureOk, L.CloserOk;
    InvReached(steps);
    var s := Run(Initial(), steps);
    assert L.CallerAt(s.life, c);
    NothingAfterFinish(s, more);
  }

  // -- A stop is soon seen -----------------------------------------------------------------------------

  lemma {:induction false} CallsSplit(a: seq<Event>, b: seq<Event>)
    ensures Calls(a + b) == Calls(a) + Calls(b)
    decreases |b|
  {
    if b == [] {
      assert a + b == a;
    } else {
      assert (a + b)[..|a + b| - 1] == a + b[..|b| - 1];
      CallsSplit(a, b[..|b| - 1]);
    }
  }

  lemma CallsInRound(r: Round, last: Counter)
    ensures Calls(Play(r, last).events) == if CallsBack(r) then 1 else 0
  {
    hide Play, Script, CallsBack, Calls;
    RoundScript(r, last);
    OccursInScript(r, last, Callback);
    CallsOccur(Play(r, last).events);
  }

  // The callback that a round past its load of the flag may still bring.
  function Owed(s: State): nat {
    if s.at.Working? && s.at.wait.Ready? then 1 else 0
  }

  lemma PassedCalls(s: State, r: Round)
    requires LoopOk(s) && s.end == Running && s.last == Trace(s.rounds, s.first).last
    ensures Calls(Events(Passed(s, r))) <= Calls(Events(s)) + (if CallsBack(r) then 1 else 0)
    ensures Owed(Passed(s, r)) == 0
  {
    hide Play, Calls, L.GoOn;
    TraceNext(s.rounds, r, s.first);
    CallsInRound(r, s.last);
    CallsSplit(Events(s), Play(r, s.last).events);
  }

  lemma StoppingStep(s: State, e: Step)
    requires Inv(s) && Enabled(s, e) && s.life.stopRequested
    ensures var r := Apply(s, e);
            r.life.stopRequested && Calls(Events(r)) + Owed(r) <= Calls(Events(s)) + Owed(s)
  {
    hide Calls, Trace, L.Inv, L.Apply, Passed;
    match e
    case Life(l) => LifeStep(s.life, l);
    case ReadCounter(n) => NoRounds(s.first, n);
    case LoadAtTop =>
      PassedCalls(s, STOPPED_AT_TOP);
      PassedStays(s, STOPPED_AT_TOP);
    case LoadStop =>
      PassedCalls(s, RoundOf(s.at.wait, s.at.counter, true, NOTHING));
      PassedStays(s, RoundOf(s.at.wait, s.at.counter, true, NOTHING));
    case Rest(w) =>
      PassedCalls(s, RoundOf(s.at.wait, s.at.counter, false, w));
      PassedStays(s, RoundOf(s.at.wait, s.at.counter, false, w));
    case _ =>
  }

  lemma NoRounds(a: Counter, b: Counter)
    ensures Trace([], a).events == [] && Trace([], b).events == []
  {}

  lemma PassedStays(s: State, r: Round)
    ensures Passed(s, r).life.stopRequested == s.life.stopRequested
  {
    hide Play, L.SetFailure;
  }

  // Once a stop is requested there is at most one more callback, and none unless the
  // loop has already gone past its last load of the flag in a round whose period is
  // ready.
  lemma {:induction false} OneMoreCallback(s: State, steps: seq<Step>)
    requires Inv(s) && s.life.stopRequested
    ensures Calls(Events(Run(s, steps))) <= Calls(Events(s)) + Owed(s)
    decreases |steps|
  {
    hide Inv, Apply, Enabled, Calls, Events, Owed;
    if steps != [] {
      if Enabled(s, steps[0]) {
        InvKept(s, steps[0]);
        StoppingStep(s, steps[0]);
        OneMoreCallback(Apply(s, steps[0]), steps[1..]);
      } else {
        OneMoreCallback(s, steps[1..]);
      }
    }
  }
}
