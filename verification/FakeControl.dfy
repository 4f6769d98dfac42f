/**
 Advance of the fake device's control beside the stream: it releases periods
 through a channel of tokens and waits until they are committed. A stream may be
 interrupted, end and be opened again at any point; each opening is a generation
 with channels of its own. A section under the lock, a channel operation and a
 commit are one step each.
 */
module FakeControl {

  const TOKENS: nat := 64

  datatype Answer = Done | BadState | Stopped

  // Where the one Advance that holds the advance lock is. generation is that of
  // the channels it took.
  datatype Advance =
    | Idle
    | Sending(target: nat, generation: nat, left: nat)
    | Watching(target: nat, generation: nat)
    | Blocked(target: nat, generation: nat)
    | Returned(answer: Answer, target: nat)

  datatype State = State(
    generation: nat, started: bool, ended: bool, claimed: bool,
    requested: nat, completed: nat, tokens: nat,
    // Which generations were interrupted, and whether the stream holds a token.
    interrupted: set<nat>, pending: bool, closed: bool,
    advance: Advance,
    // History: the tokens sent in this generation.
    sent: nat)

  function Initial(): State {
    State(0, false, false, false, 0, 0, 0, {}, false, true, Idle, 0)
  }

  datatype Step =
    // The control.
    | Call(periods: nat) | Send | GiveUp | Watch | Wake | WakeInterrupted | Leave
    // The stream.
    | Open | Start | Take | Commit | Interrupt | End | Close

  predicate Enabled(s: State, e: Step) {
    match e
    case Call(periods) => s.advance.Idle? && periods > 0 && s.started && !s.ended
    case Send =>
      s.advance.Sending? && s.advance.left > 0
      && (s.advance.generation == s.generation ==> s.tokens < TOKENS)
    case GiveUp => s.advance.Sending? && s.advance.generation in s.interrupted
    case Watch => s.advance.Watching?
    case Wake => s.advance.Blocked?
    case WakeInterrupted => s.advance.Blocked? && s.advance.generation in s.interrupted
    case Leave => s.advance.Returned?
    case Open => !s.claimed && !(s.started && !s.ended)
    case Start => !s.closed && !s.ended && !s.started
    case Take => !s.closed && !s.pending && s.tokens > 0
    case Commit => !s.closed && s.pending
    case Interrupt => !s.closed
    case End => !s.closed
    case Close => !s.closed
  }

  function Apply(s: State, e: Step): State
    requires Enabled(s, e)
  {
    match e
    case Call(periods) =>
      s.(requested := s.requested + periods, advance := Sending(s.requested + periods, s.generation, periods))
    case Send =>
      var Sending(target, generation, left) := s.advance;
      var next := if left == 1 then Watching(target, generation) else Sending(target, generation, left - 1);
      // The channel of an earlier generation has no reader.
      if generation == s.generation then s.(tokens := s.tokens + 1, sent := s.sent + 1, advance := next)
      else s.(advance := next)
    case GiveUp => s.(advance := Returned(BadState, s.advance.target))
    case Watch =>
      var Watching(target, generation) := s.advance;
      s.(advance :=
           if generation != s.generation then Returned(BadState, target)
           else if s.completed >= target then Returned(Done, target)
           else if s.ended then Returned(Stopped, target)
           else Blocked(target, generation))
    case Wake => s.(advance := Watching(s.advance.target, s.advance.generation))
    case WakeInterrupted =>
      s.(advance := Returned(if s.completed >= s.advance.target then Done else Stopped, s.advance.target))
    case Leave => s.(advance := Idle)
    // An opening after the end starts a new generation from zero.
    case Open =>
      if s.ended
      then s.(started := false, ended := false, requested := 0, completed := 0, tokens := 0, sent := 0,
              generation := s.generation + 1, claimed := true, pending := false, closed := false)
      else s.(claimed := true, pending := false, closed := false)
    case Start => s.(started := true)
    case Take => s.(tokens := s.tokens - 1, pending := true)
    case Commit => s.(pending := false, completed := s.completed + 1)
    case Interrupt => s.(interrupted := s.interrupted + {s.generation})
    case End => s.(ended := true, interrupted := s.interrupted + {s.generation})
    case Close => s.(closed := true, claimed := false, ended := true)
  }

  function Run(s: State, steps: seq<Step>): State
    decreases |steps|
  {
    if steps == [] then s
    else if Enabled(s, steps[0]) then Run(Apply(s, steps[0]), steps[1..])
    else Run(s, steps[1..])
  }

  // -- The invariant --------------------------------------------------------------------

  function One(b: bool): nat { if b then 1 else 0 }

  // Every token sent is queued, held or committed, and none was sent unasked.
  predicate TokensOk(s: State) {
    && (if s.closed && s.ended then s.completed + s.tokens <= s.sent
        else s.completed + One(s.pending) + s.tokens == s.sent)
    && s.sent <= s.requested && s.tokens <= TOKENS
    && (s.claimed <==> !s.closed)
    && (s.closed ==> s.ended || (!s.started && s.requested == 0 && s.tokens == 0 && !s.pending))
    && (!s.started ==> s.requested == 0)
  }

  // The Advance in progress owns every request of its generation.
  predicate AdvanceOk(s: State) {
    match s.advance
    case Sending(target, generation, left) =>
      && generation <= s.generation && 0 < left <= target
      && (if generation == s.generation then target == s.requested && s.sent + left <= s.requested else s.requested == 0)
    case Watching(target, generation) =>
      generation <= s.generation && target > 0
      && (if generation == s.generation then target == s.requested else s.requested == 0)
    case Blocked(target, generation) =>
      generation <= s.generation && target > 0
      && (if generation == s.generation then target == s.requested else s.requested == 0)
    case _ => true
  }

  predicate Inv(s: State) {
    TokensOk(s) && AdvanceOk(s)
  }

  lemma TokensKept(s: State, e: Step)
    requires Inv(s) && Enabled(s, e)
    ensures TokensOk(Apply(s, e))
  {
    hide Run;
  }

  lemma AdvanceKept(s: State, e: Step)
    requires Inv(s) && Enabled(s, e)
    ensures AdvanceOk(Apply(s, e))
  {
    hide Run;
  }

  lemma {:induction false} InvAlways(s: State, steps: seq<Step>)
    requires Inv(s)
    ensures Inv(Run(s, steps))
    decreases |steps|
  {
    hide TokensOk, AdvanceOk, Apply, Enabled;
    if steps != [] {
      if Enabled(s, steps[0]) {
        TokensKept(s, steps[0]);
        AdvanceKept(s, steps[0]);
        InvAlways(Apply(s, steps[0]), steps[1..]);
      } else {
        InvAlways(s, steps[1..]);
      }
    }
  }

  lemma InvReached(steps: seq<Step>)
    ensures Inv(Run(Initial(), steps))
  {
    InvAlways(Initial(), steps);
  }

  // -- What holds after every schedule -----------------------------------------------------

  // While a stream is open, the periods committed, held and queued are those
  // released, and never more than were requested.
  lemma NothingUnasked(steps: seq<Step>)
    ensures var s := Run(Initial(), steps);
            !s.closed ==> s.completed + One(s.pending) + s.tokens == s.sent <= s.requested
  {
    hide Run;
    InvReached(steps);
  }

  // An Advance that returns nil has had exactly the requested periods committed.
  lemma DoneMeansAll(steps: seq<Step>, e: Step)
    requires Enabled(Run(Initial(), steps), e)
    ensures var (s, r) := (Run(Initial(), steps), Apply(Run(Initial(), steps), e));
            r.advance.Returned? && r.advance.answer == Done && !s.advance.Returned? ==>
              r.completed == r.requested == r.advance.target && r.tokens == 0
  {
    hide Run;
    InvReached(steps);
  }

  // -- An undisturbed Advance ------------------------------------------------------------

  // The current opening was neither interrupted nor ended.
  predicate Undisturbed(s: State) {
    s.generation !in s.interrupted && !s.ended
  }

  // The Advance in progress is of the current opening.
  predicate InProgress(s: State) {
    match s.advance
    case Sending(_, generation, _) => generation == s.generation
    case Watching(_, generation) => generation == s.generation
    case Blocked(_, generation) => generation == s.generation
    case _ => false
  }

  // Then what was requested was sent, but for what the Advance in progress still has to
  // send, and its stream is open and started. In the first opening every Advance that
  // returned, returned nil.
  predicate InStep(s: State) {
    && (s.advance.Sending? || s.advance.Watching? || s.advance.Blocked? ==> s.advance.generation <= s.generation)
    && (forall g :: g in s.interrupted ==> g <= s.generation)
    && (Undisturbed(s) ==>
          && s.sent + (if InProgress(s) && s.advance.Sending? then s.advance.left else 0) == s.requested
          && (InProgress(s) ==> s.started && !s.closed)
          && (s.generation == 0 && s.advance.Returned? ==> s.advance.answer == Done))
  }

  lemma InStepKept(s: State, e: Step)
    requires Inv(s) && Enabled(s, e) && InStep(s)
    ensures InStep(Apply(s, e))
  {
    hide Run;
  }

  lemma {:induction false} InStepAlways(s: State, steps: seq<Step>)
    requires Inv(s) && InStep(s)
    ensures Inv(Run(s, steps)) && InStep(Run(s, steps))
    decreases |steps|
  {
    hide Inv, Apply, Enabled, InStep;
    if steps != [] {
      if Enabled(s, steps[0]) {
        InvKept(s, steps[0]);
        InStepKept(s, steps[0]);
        InStepAlways(Apply(s, steps[0]), steps[1..]);
      } else {
        InStepAlways(s, steps[1..]);
      }
    }
  }

  lemma InvKept(s: State, e: Step)
    requires Inv(s) && Enabled(s, e)
    ensures Inv(Apply(s, e))
  {
    hide Apply, Enabled, TokensOk, AdvanceOk;
    TokensKept(s, e);
    AdvanceKept(s, e);
  }

  lemma InStepReached(steps: seq<Step>)
    ensures Inv(Run(Initial(), steps)) && InStep(Run(Initial(), steps))
  {
    Initially();
    hide Inv, InStep, Initial;
    InStepAlways(Initial(), steps);
  }

  lemma Initially()
    ensures Inv(Initial()) && InStep(Initial())
  {
    hide Run, Apply, Enabled;
    assert TokensOk(Initial()) && AdvanceOk(Initial());
    hide TokensOk, AdvanceOk;
    assert !InProgress(Initial());
  }

  // In a run whose first opening was neither interrupted, ended nor closed, every Advance
  // that returned, returned nil.
  lemma UndisturbedReturnsNil(steps: seq<Step>)
    ensures var s := Run(Initial(), steps);
            s.generation == 0 && Undisturbed(s) && s.advance.Returned? ==> s.advance.answer == Done
  {
    hide Run;
    InStepReached(steps);
  }

  // What an Advance still waits for: tokens to send, periods to play and commit.
  function Left(s: State): nat {
    2 * s.tokens + One(s.pending) +
    match s.advance
    case Sending(_, _, left) => 3 * left + 2
    case Watching(_, _) => 1
    case Blocked(_, _) => 2
    case _ => 0
  }

  // The next step of the stream that plays what was released, or else of the Advance.
  function NextStep(s: State): Step {
    if s.pending then Commit
    else if s.tokens > 0 then Take
    else match s.advance
      case Sending(_, _, _) => Send
      case Watching(_, _) => Watch
      case _ => Wake
  }

  // The Advance returned nil with everything requested committed.
  predicate Finished(s: State, requested: nat) {
    s.advance == Returned(Done, requested) && s.completed == s.requested == requested
  }

  lemma NextLeavesLess(s: State)
    requires Inv(s) && InStep(s) && Undisturbed(s) && InProgress(s)
    ensures Enabled(s, NextStep(s))
    ensures var r := Apply(s, NextStep(s));
            && Undisturbed(r) && Left(r) < Left(s) && r.requested == s.requested
            && (InProgress(r) || Finished(r, s.requested))
  {}

  lemma {:induction false} Ends(s: State) returns (steps: seq<Step>)
    requires Inv(s) && InStep(s) && Undisturbed(s) && InProgress(s)
    ensures Finished(Run(s, steps), s.requested)
    decreases Left(s)
  {
    hide Inv, Apply, Enabled, InStep, Undisturbed, InProgress, NextStep, Finished;
    var e := NextStep(s);
    NextLeavesLess(s);
    InvKept(s, e);
    InStepKept(s, e);
    var r, rest := Apply(s, e), [];
    if InProgress(r) {
      rest := Ends(r);
    }
    steps := [e] + rest;
    assert steps[1..] == rest;
  }

  // So wherever a run has got to, an Advance that nothing disturbs can be brought to its
  // end by the stream playing on: it returns nil with exactly what was requested
  // committed, and never waits for a period that cannot come.
  lemma AdvanceEnds(before: seq<Step>) returns (after: seq<Step>)
    requires var s := Run(Initial(), before); Undisturbed(s) && InProgress(s)
    ensures var s := Run(Initial(), before); Finished(Run(s, after), s.requested)
  {
    hide Run;
    InStepReached(before);
    after := Ends(Run(Initial(), before));
  }

  // And a started stream that is open takes the next Advance.
  lemma AdvanceBegins(before: seq<Step>, periods: nat) returns (after: seq<Step>)
    requires var s := Run(Initial(), before); Undisturbed(s) && s.started && s.advance.Idle? && periods > 0
    ensures var s := Run(Initial(), before); Finished(Run(s, after), s.requested + periods)
  {
    hide Run;
    InStepReached(before);
    var s := Run(Initial(), before);
    Called(s, periods);
    var r := Apply(s, Call(periods));
    InvKept(s, Call(periods));
    InStepKept(s, Call(periods));
    hide Inv, InStep, Apply, Enabled;
    var rest := Ends(r);
    after := [Call(periods)] + rest;
    RunFirst(s, Call(periods), rest);
  }

  lemma Called(s: State, periods: nat)
    requires Undisturbed(s) && s.started && s.advance.Idle? && periods > 0
    ensures Enabled(s, Call(periods))
    ensures var r := Apply(s, Call(periods)); Undisturbed(r) && InProgress(r) && r.requested == s.requested + periods
  {}

  lemma RunFirst(s: State, e: Step, rest: seq<Step>)
    requires Enabled(s, e)
    ensures Run(s, [e] + rest) == Run(Apply(s, e), rest)
  {
    assert ([e] + rest)[1..] == rest;
  }

  // An open stream can be ended, closed, opened and started again, as a new generation
  // from zero that nothing has disturbed.
  lemma OpensAgain(before: seq<Step>)
    requires !Run(Initial(), before).closed
    ensures var s := Run(Initial(), before);
            var r := Run(s, [End, Close, Open, Start]);
            && Undisturbed(r) && r.started && !r.closed && r.generation == s.generation + 1
            && r.requested == r.completed == r.tokens == 0 && r.advance == s.advance
  {
    hide Run;
    InStepReached(before);
    var s := Run(Initial(), before);
    var a := Apply(s, End);
    var b := Apply(a, Close);
    var c := Apply(b, Open);
    RunFirst(s, End, [Close] + ([Open] + ([Start] + [])));
    RunFirst(a, Close, [Open] + ([Start] + []));
    RunFirst(b, Open, [Start] + []);
    RunFirst(c, Start, []);
    assert [End] + ([Close] + ([Open] + ([Start] + []))) == [End, Close, Open, Start];
    RunNone(Apply(c, Start));
  }

  lemma RunNone(s: State)
    ensures Run(s, []) == s
  {}

  // An interrupt releases the Advance in progress: it returns nil only if everything was
  // committed all the same.
  lemma InterruptReleases(before: seq<Step>)
    requires var s := Run(Initial(), before); InProgress(s) && !s.closed
    ensures var s := Run(Initial(), before);
            var r := Run(s, [Interrupt, GiveUp, Watch, WakeInterrupted]);
            r.advance.Returned? && (r.advance.answer == Done <==> !s.advance.Sending? && s.completed >= s.advance.target)
  {
    hide Run;
    Released(Run(Initial(), before));
  }

  lemma Released(s: State)
    requires InProgress(s) && !s.closed
    ensures var r := Run(s, [Interrupt, GiveUp, Watch, WakeInterrupted]);
            r.advance.Returned? && (r.advance.answer == Done <==> !s.advance.Sending? && s.completed >= s.advance.target)
  {
    var a := Apply(s, Interrupt);
    assert [Interrupt, GiveUp, Watch, WakeInterrupted][1..] == [GiveUp, Watch, WakeInterrupted];
    assert [GiveUp, Watch, WakeInterrupted][1..] == [Watch, WakeInterrupted];
    assert [Watch, WakeInterrupted][1..] == [WakeInterrupted];
    assert [WakeInterrupted][1..] == [];
  }
}
