/**
 The endpoint watch: notifications wake an owner that takes and publishes whole
 snapshots; a dispatcher loads the latest, and hands the listener the events that
 lead to it. Wake-ups coalesce: each channel holds at most one. A load, store,
 compare-and-swap or channel operation is one step.
 */
module Watcher {
  import opened Endpoints

  // Where the owner of the notifications is.
  datatype Owner =
    | Settling                        // registered, about to take the first snapshot
    | Publishing(devices: Snapshot)   // about to store the latest snapshot
    | Sending                         // stored, about to wake the dispatcher
    | Idle
    | Snapshotting
    | Retrying                        // enumeration failed, the timer runs
    | Gone

  // Where the dispatcher is; rest are the events of current not handed out yet.
  datatype Dispatcher =
    | Waiting
    | Loading
    | Judging(current: Snapshot, rest: seq<Event>)
    | Swapping(current: Snapshot, rest: seq<Event>, cancelled: bool, active: bool)
    | Calling(current: Snapshot, rest: seq<Event>)
    | Ended

  // The side of the notifications. taken are the snapshots ever taken.
  datatype Source = Source(world: Snapshot, notices: nat, queue: bool, owner: Owner, taken: seq<Snapshot>)

  // The side of the listener. loaded is the last snapshot loaded, dispatched the
  // events ever handed out.
  datatype Sink = Sink(
    dispatcher: Dispatcher, previous: Snapshot, active: bool, loaded: Snapshot, dispatched: seq<Event>)

  datatype State = State(
    src: Source, sink: Sink,
    latest: Snapshot, stored: bool, wake: bool, cancelled: bool, stopping: bool, baseline: Snapshot)

  function Initial(baseline: Snapshot, world: Snapshot): State {
    State(Source(world, 0, false, Settling, []), Sink(Waiting, baseline, false, baseline, []),
          [], false, false, false, false, baseline)
  }

  // Steps on the side of the device notifications and their owner.
  datatype OwnerStep =
    | WorldChanges(devices: Snapshot)   // a notification of it is on its way
    | Notify                            // and arrives
    | Setup(ok: bool) | Store | Send | TakeNotice | Snap(ok: bool) | RetryLater | Leave

  datatype DispatcherStep =
    | TakeWake | Load(events: seq<Event>) | LoadState | Swap | CallbackReturns | Adopt | End

  datatype Step = ByOwner(o: OwnerStep) | ByDispatcher(d: DispatcherStep) | Cancel | CloseLoop

  predicate OwnerCan(s: State, e: OwnerStep) {
    match e
    case WorldChanges(_) => true
    case Notify => s.src.notices > 0
    case Setup(_) => s.src.owner.Settling?
    case Store => s.src.owner.Publishing?
    case Send => s.src.owner.Sending?
    case TakeNotice => s.src.owner.Idle? && s.src.queue
    case Snap(_) => s.src.owner.Snapshotting?
    case RetryLater => s.src.owner.Retrying?
    case Leave => s.stopping && (s.src.owner.Idle? || s.src.owner.Retrying?)
  }

  function OwnerDoes(s: State, e: OwnerStep): (r: State)
    requires OwnerCan(s, e)
    ensures r.sink == s.sink && r.baseline == s.baseline
    ensures r.cancelled == s.cancelled && r.stopping == s.stopping
  {
    var src := s.src;
    match e
    case WorldChanges(devices) => s.(src := src.(world := devices, notices := src.notices + 1))
    case Notify => s.(src := src.(notices := src.notices - 1, queue := true))
    // The first snapshot; if it fails, the baseline is published again.
    case Setup(ok) =>
      s.(src := if ok then src.(owner := Publishing(src.world), taken := src.taken + [src.world])
                else src.(owner := Publishing(s.baseline)))
    case Store => s.(src := src.(owner := Sending), latest := src.owner.devices, stored := true)
    case Send => s.(src := src.(owner := Idle), wake := true)
    case TakeNotice => s.(src := src.(owner := Snapshotting, queue := false))
    case Snap(ok) =>
      s.(src := if ok then src.(owner := Publishing(src.world), taken := src.taken + [src.world])
                else src.(owner := Retrying))
    case RetryLater => s.(src := src.(owner := Idle, queue := true))
    case Leave => s.(src := src.(owner := Gone))
  }

  ghost predicate DispatcherCan(s: State, e: DispatcherStep) {
    match e
    case TakeWake => s.sink.dispatcher.Waiting? && s.wake
    case Load(events) => s.sink.dispatcher.Loading? && IsDiff(s.sink.previous, s.latest, events)
    case LoadState => s.sink.dispatcher.Judging? && s.sink.dispatcher.rest != []
    case Swap => s.sink.dispatcher.Swapping? && s.sink.dispatcher.rest != []
    case CallbackReturns => s.sink.dispatcher.Calling?
    case Adopt => s.sink.dispatcher.Judging? && s.sink.dispatcher.rest == []
    case End => s.sink.dispatcher.Waiting? && s.src.owner.Gone?
  }

  ghost function DispatcherDoes(s: State, e: DispatcherStep): (r: State)
    requires DispatcherCan(s, e)
    ensures r == s.(sink := r.sink, wake := r.wake)
  {
    var k := s.sink;
    match e
    case TakeWake => s.(sink := k.(dispatcher := Loading), wake := false)
    case Load(events) => s.(sink := k.(dispatcher := Judging(s.latest, events), loaded := s.latest))
    // Admission: load both bits, give up if either is set, else swap.
    case LoadState =>
      var Judging(current, rest) := k.dispatcher;
      s.(sink := k.(dispatcher := if s.cancelled || k.active then Ended
                                  else Swapping(current, rest, s.cancelled, k.active)))
    case Swap =>
      var Swapping(current, rest, cancelled, active) := k.dispatcher;
      s.(sink := if s.cancelled == cancelled && k.active == active
                 then k.(active := true, dispatcher := Calling(current, rest[1..]),
                         dispatched := k.dispatched + [rest[0]])
                 else k.(dispatcher := Judging(current, rest)))
    case CallbackReturns =>
      var Calling(current, rest) := k.dispatcher;
      s.(sink := k.(active := false, dispatcher := Judging(current, rest)))
    case Adopt => s.(sink := k.(dispatcher := Waiting, previous := k.dispatcher.current))
    case End => s.(sink := k.(dispatcher := Ended))
  }

  ghost predicate Enabled(s: State, e: Step) {
    match e
    case ByOwner(o) => OwnerCan(s, o)
    case ByDispatcher(d) => DispatcherCan(s, d)
    case Cancel => true
    case CloseLoop => s.cancelled
  }

  ghost function Apply(s: State, e: Step): State
    requires Enabled(s, e)
  {
    match e
    case ByOwner(o) => OwnerDoes(s, o)
    case ByDispatcher(d) => DispatcherDoes(s, d)
    case Cancel => s.(cancelled := true)
    case CloseLoop => s.(stopping := true)
  }

  // The state after a schedule; a step that is not enabled is skipped.
  ghost function Run(s: State, steps: seq<Step>): State
    decreases |steps|
  {
    if steps == [] then s
    else if Enabled(s, steps[0]) then Run(Apply(s, steps[0]), steps[1..])
    else Run(s, steps[1..])
  }

  // -- The invariant -----------------------------------------------------------------

  // What was published is the last snapshot taken, or the baseline before one was.
  ghost function LastTaken(s: State): Snapshot {
    if s.src.taken == [] then s.baseline else s.src.taken[|s.src.taken| - 1]
  }

  // A change of the world that no snapshot shows yet has work on the way.
  ghost predicate NoticePending(s: State) {
    s.src.notices > 0 || s.src.queue || s.src.owner.Snapshotting? || s.src.owner.Retrying?
  }

  ghost predicate OwnerOk(s: State) {
    && (s.src.owner.Publishing? ==> s.src.owner.devices == LastTaken(s))
    && (s.src.owner.Settling? ==> s.src.taken == [] && !s.stored)
    && (s.stored || s.src.owner.Settling? || s.src.owner.Publishing?)
    && (s.stored && !s.src.owner.Publishing? ==> s.latest == LastTaken(s))
  }

  ghost predicate NoticeOk(s: State) {
    && (s.src.taken != [] && s.src.world != LastTaken(s) && !s.cancelled ==> NoticePending(s))
    && (s.stopping ==> s.cancelled)
    && (s.src.owner.Gone? ==> s.cancelled)
  }

  ghost predicate WakePending(s: State) {
    s.wake || s.src.owner.Sending? || s.sink.dispatcher.Loading?
  }

  ghost predicate WakeOk(s: State) {
    s.stored && s.latest != s.sink.loaded && !s.sink.dispatcher.Ended? ==> WakePending(s)
  }

  ghost predicate EventsOk(s: State) {
    && (s.sink.active <==> s.sink.dispatcher.Calling?)
    && (s.sink.dispatcher.Swapping? ==> !s.sink.dispatcher.cancelled && !s.sink.dispatcher.active)
    && (s.sink.dispatcher.Ended? ==> s.cancelled)
    && (match s.sink.dispatcher
        case Waiting => s.sink.previous == s.sink.loaded && Heard(s, [])
        case Loading => s.sink.previous == s.sink.loaded && Heard(s, [])
        case Judging(current, rest) => current == s.sink.loaded && Heard(s, rest)
        case Swapping(current, rest, _, _) => rest != [] && current == s.sink.loaded && Heard(s, rest)
        case Calling(current, rest) => current == s.sink.loaded && Heard(s, rest)
        case Ended => true)
  }

  // After the events still to come the listener's picture is the loaded snapshot.
  ghost predicate Heard(s: State, rest: seq<Event>) {
    Replay(Forms(s.baseline), s.sink.dispatched + rest) == Forms(s.sink.loaded)
  }

  ghost predicate Inv(s: State) {
    OwnerOk(s) && NoticeOk(s) && WakeOk(s) && EventsOk(s)
  }

  lemma OwnerKept(s: State, e: Step)
    requires Inv(s) && Enabled(s, e)
    ensures OwnerOk(Apply(s, e))
  {
    hide WakeOk, EventsOk, NoticeOk, DispatcherCan, DispatcherDoes, LastTaken;
    match e
    case ByOwner(o) => OwnerOne(s, o);
    case ByDispatcher(d) => assert LastTaken(Apply(s, e)) == LastTaken(s) by { SameTaken(s, Apply(s, e)); }
    case Cancel => SameTaken(s, Apply(s, e));
    case CloseLoop => SameTaken(s, Apply(s, e));
  }

  lemma SameTaken(s: State, r: State)
    requires r.src.taken == s.src.taken && r.baseline == s.baseline
    ensures LastTaken(r) == LastTaken(s)
  {}

  lemma OwnerOne(s: State, o: OwnerStep)
    requires OwnerOk(s) && OwnerCan(s, o)
    ensures OwnerOk(OwnerDoes(s, o))
  {
    hide LastTaken;
    var r := OwnerDoes(s, o);
    if r.src.taken == s.src.taken {
      SameTaken(s, r);
    } else {
      JustTaken(s, r);
    }
    if s.src.taken == [] { NoneTaken(s); }
  }

  lemma JustTaken(s: State, r: State)
    requires r.src.taken == s.src.taken + [s.src.world]
    ensures LastTaken(r) == s.src.world && r.src.taken != s.src.taken
  {
    assert |r.src.taken| == |s.src.taken| + 1;
  }

  lemma NoneTaken(s: State)
    requires s.src.taken == []
    ensures LastTaken(s) == s.baseline
  {}

  lemma NoticeKept(s: State, e: Step)
    requires Inv(s) && Enabled(s, e)
    ensures NoticeOk(Apply(s, e))
  {
    hide WakeOk, EventsOk, DispatcherCan, DispatcherDoes, LastTaken;
    var r := Apply(s, e);
    if r.src.taken == s.src.taken {
      SameTaken(s, r);
    } else {
      JustTaken(s, r);
    }
  }

  lemma WakeKept(s: State, e: Step)
    requires Inv(s) && Enabled(s, e)
    ensures WakeOk(Apply(s, e))
  {
    hide EventsOk, IsDiff, LastTaken, NoticePending, OwnerOk, NoticeOk;
    if e.ByOwner? { hide DispatcherDoes; } else { hide OwnerDoes; }
  }

  lemma EventsKept(s: State, e: Step)
    requires Inv(s) && Enabled(s, e)
    ensures EventsOk(Apply(s, e))
  {
    hide LastTaken, NoticePending, WakeOk, OwnerOk, Replay, Forms, IsDiff, OwnerDoes, OwnerCan;
    match e
    case ByDispatcher(Load(events)) =>
      DiffReplays(s.sink.previous, s.latest, events);
      ReplaySplit(Forms(s.baseline), s.sink.dispatched, events);
      assert s.sink.dispatched + [] == s.sink.dispatched;
    case ByDispatcher(Swap) =>
      var rest := s.sink.dispatcher.rest;
      assert s.sink.dispatched + [rest[0]] + rest[1..] == s.sink.dispatched + rest;
    case _ =>
  }

  lemma Kept(s: State, e: Step)
    requires Inv(s) && Enabled(s, e)
    ensures Inv(Apply(s, e))
  {
    hide OwnerOk, NoticeOk, WakeOk, EventsOk, Apply, Enabled;
    OwnerKept(s, e);
    NoticeKept(s, e);
    WakeKept(s, e);
    EventsKept(s, e);
  }

  lemma {:induction false} InvAlways(s: State, steps: seq<Step>)
    requires Inv(s)
    ensures Inv(Run(s, steps))
    decreases |steps|
  {
    hide Inv, Apply, Enabled;
    if steps != [] {
      if Enabled(s, steps[0]) {
        Kept(s, steps[0]);
        InvAlways(Apply(s, steps[0]), steps[1..]);
      } else {
        InvAlways(s, steps[1..]);
      }
    }
  }

  lemma InvReached(baseline: Snapshot, world: Snapshot, steps: seq<Step>)
    ensures Inv(Run(Initial(baseline, world), steps))
  {
    var s := Initial(baseline, world);
    assert Replay(Forms(baseline), [] + []) == Forms(baseline);
    InvAlways(s, steps);
  }

  // -- What holds after every schedule ----------------------------------------------------

  // However wake-ups coalesce: a published snapshot the dispatcher has not loaded
  // still has a wake-up, unless the watch was cancelled.
  lemma NoLostSnapshot(baseline: Snapshot, world: Snapshot, steps: seq<Step>)
    ensures var s := Run(Initial(baseline, world), steps);
            s.stored && s.latest != s.sink.loaded && !s.cancelled ==>
              s.wake || s.src.owner.Sending? || s.sink.dispatcher.Loading?
  {
    hide Run, OwnerOk;
    InvReached(baseline, world, steps);
  }

  // Between two dispatches the listener, who knew the baseline, knows the last
  // loaded snapshot.
  lemma ListenerInStep(baseline: Snapshot, world: Snapshot, steps: seq<Step>)
    ensures var s := Run(Initial(baseline, world), steps);
            s.sink.dispatcher.Waiting? || s.sink.dispatcher.Loading? ==>
              Replay(Forms(baseline), s.sink.dispatched) == Forms(s.sink.loaded)
  {
    hide OwnerOk, WakeOk, Replay, Forms;
    InvReached(baseline, world, steps);
    var s := Run(Initial(baseline, world), steps);
    BaselineStays(Initial(baseline, world), steps);
    assert s.sink.dispatched + [] == s.sink.dispatched;
  }

  lemma {:induction false} BaselineStays(s: State, steps: seq<Step>)
    ensures Run(s, steps).baseline == s.baseline
    decreases |steps|
  {
    hide OwnerDoes, DispatcherDoes, Enabled;
    if steps != [] {
      BaselineStays(if Enabled(s, steps[0]) then Apply(s, steps[0]) else s, steps[1..]);
    }
  }

  // From end to end: when nothing is on its way and a snapshot has succeeded, the
  // listener knows the world as it is.
  predicate Quiet(s: State) {
    && s.src.notices == 0 && !s.src.queue && s.src.owner.Idle? && !s.wake && s.sink.dispatcher.Waiting? && !s.cancelled
  }

  lemma ListenerKnowsTheWorld(baseline: Snapshot, world: Snapshot, steps: seq<Step>)
    ensures var s := Run(Initial(baseline, world), steps);
            Quiet(s) && s.src.taken != [] ==> Replay(Forms(baseline), s.sink.dispatched) == Forms(s.src.world)
  {
    hide Run, Replay, Forms, EventsOk;
    InvReached(baseline, world, steps);
    ListenerInStep(baseline, world, steps);
  }

  // Once cancelled, no further callback is admitted, whatever happens next.
  lemma {:induction false} NothingAfterCancel(s: State, steps: seq<Step>)
    requires Inv(s) && s.cancelled
    ensures Run(s, steps).sink.dispatched == s.sink.dispatched && Run(s, steps).cancelled
    decreases |steps|
  {
    hide Inv, Apply, Enabled;
    if steps != [] {
      var e := steps[0];
      if Enabled(s, e) {
        Kept(s, e);
        SilentStep(s, e);
        NothingAfterCancel(Apply(s, e), steps[1..]);
      } else {
        NothingAfterCancel(s, steps[1..]);
      }
    }
  }

  lemma SilentStep(s: State, e: Step)
    requires Inv(s) && s.cancelled && Enabled(s, e)
    ensures Apply(s, e).sink.dispatched == s.sink.dispatched && Apply(s, e).cancelled
  {
    hide OwnerOk, WakeOk, Heard, IsDiff, OwnerDoes;
  }

  // -- It settles ------------------------------------------------------------------------

  // The steps that finish what has begun: all but new notifications, failures of the
  // enumeration, and the end of the watch.
  predicate Finishing(e: Step) {
    match e
    case ByOwner(WorldChanges(_)) => false
    case ByOwner(Setup(ok)) => ok
    case ByOwner(Snap(ok)) => ok
    case ByOwner(Leave) => false
    case ByDispatcher(End) => false
    case Cancel => false
    case CloseLoop => false
    case _ => true
  }

  // What is left for the owner to do: a notification costs more than the wake-up it
  // becomes, and a wake-up more than the snapshot taken for it.
  function OwnerWork(s: Source): nat {
    6 * s.notices + (if s.queue then 5 else 0) +
    match s.owner
    case Settling => 3
    case Publishing(_) => 2
    case Sending => 1
    case Idle => 0
    case Snapshotting => 3
    case Retrying => 6
    case Gone => 0
  }

  function LoadWork(s: State): nat {
    (if s.wake then 2 else 0) + if s.sink.dispatcher.Loading? then 1 else 0
  }

  function CallWork(k: Sink): nat {
    match k.dispatcher
    case Judging(_, rest) => 4 * |rest| + 1
    case Swapping(_, rest, _, _) => 4 * |rest|
    case Calling(_, rest) => 4 * |rest| + 2
    case _ => 0
  }

  // Less is left: of the owner's work, else of loads, else of callbacks.
  predicate LessLeft(r: State, s: State) {
    || OwnerWork(r.src) < OwnerWork(s.src)
    || (OwnerWork(r.src) == OwnerWork(s.src)
        && (LoadWork(r) < LoadWork(s) || (LoadWork(r) == LoadWork(s) && CallWork(r.sink) < CallWork(s.sink))))
  }

  // A snapshot was taken, or one is on its way.
  ghost predicate Informed(s: State) {
    s.src.taken != [] || s.src.owner.Settling? || NoticePending(s)
  }

  // Every one of these steps leaves less to do, whichever is taken: no wake-up is
  // handled twice, and no event handed out twice.
  lemma StepLeavesLess(s: State, e: Step)
    requires Inv(s) && !s.cancelled && Enabled(s, e) && Finishing(e)
    ensures LessLeft(Apply(s, e), s) && !Apply(s, e).cancelled
  {
    hide OwnerOk, NoticeOk, WakeOk, IsDiff, Heard;
    if e.ByOwner? { hide DispatcherDoes, DispatcherCan; } else { hide OwnerDoes, OwnerCan; }
  }

  lemma StaysInformed(s: State, e: Step)
    requires Informed(s) && Enabled(s, e) && Finishing(e)
    ensures Informed(Apply(s, e)) && Apply(s, e).src.world == s.src.world
  {
    hide IsDiff;
    if e.ByOwner? { hide DispatcherDoes, DispatcherCan; } else { hide OwnerDoes, OwnerCan; }
  }

  // A sorted list of identifiers.
  lemma {:induction false} SomeOrder(s: set<string>) returns (ids: seq<string>)
    ensures Sorted(ids) && forall y :: y in ids <==> y in s
    decreases s
  {
    if s == {} {
      ids := [];
    } else {
      var x := Least(s);
      var rest := SomeOrder(s - {x});
      ids := [x] + rest;
      forall y ensures y in ids <==> y in s {
        assert y in ids <==> y == x || y in rest;
      }
      forall i, j | 0 <= i < j < |ids| ensures Below(ids[i], ids[j]) {
        assert rest[j - 1] in rest;
      }
    }
  }

  lemma SomeDiff(previous: Snapshot, current: Snapshot) returns (events: seq<Event>)
    ensures IsDiff(previous, current, events)
  {
    hide Sorted, DefaultChange, MapOf, Changes;
    var was, now := MapOf(previous), MapOf(current);
    var ids := SomeOrder(was.Keys + now.Keys);
    UnionOf(ids, was, now);
    events := Changes(was, now, ids) + DefaultChange(previous, current, 1) + DefaultChange(previous, current, 2);
  }

  // While anything is left to do, one of these steps is enabled.
  lemma SomeStep(s: State) returns (e: Step)
    requires Inv(s) && !s.cancelled && !Quiet(s)
    ensures Enabled(s, e) && Finishing(e)
  {
    hide OwnerOk, WakeOk, IsDiff, Heard;
    match s.sink.dispatcher {
      case Loading =>
        var events := SomeDiff(s.sink.previous, s.latest);
        return ByDispatcher(Load(events));
      case Judging(_, rest) => return ByDispatcher(if rest == [] then Adopt else LoadState);
      case Swapping(_, _, _, _) => return ByDispatcher(Swap);
      case Calling(_, _) => return ByDispatcher(CallbackReturns);
      case _ =>
    }
    if s.wake {
      return ByDispatcher(TakeWake);
    }
    e := ByOwner(
      match s.src.owner
      case Settling => Setup(true)
      case Publishing(_) => Store
      case Sending => Send
      case Snapshotting => Snap(true)
      case Retrying => RetryLater
      case _ => if s.src.queue then TakeNotice else Notify);
  }

  ghost predicate AllFinishing(steps: seq<Step>) {
    forall i :: 0 <= i < |steps| ==> Finishing(steps[i])
  }

  lemma {:induction false} SettleFrom(s: State) returns (steps: seq<Step>)
    requires Inv(s) && !s.cancelled && Informed(s)
    ensures AllFinishing(steps) && Quiet(Run(s, steps)) && Informed(Run(s, steps))
    ensures Run(s, steps).src.world == s.src.world
    decreases OwnerWork(s.src), LoadWork(s), CallWork(s.sink)
  {
    hide Inv, Enabled, Apply, Finishing, Informed;
    if Quiet(s) {
      steps := [];
    } else {
      var e := SomeStep(s);
      StepLeavesLess(s, e);
      StaysInformed(s, e);
      Kept(s, e);
      var rest := SettleFrom(Apply(s, e));
      steps := [e] + rest;
      assert steps[1..] == rest;
    }
  }

  // So from wherever an uncancelled watch has got to, it can settle without a further
  // notification, and then the listener knows the world as it was all along; unless the
  // first snapshot failed and nothing has been notified since.
  lemma Settles(baseline: Snapshot, world: Snapshot, before: seq<Step>) returns (after: seq<Step>)
    requires var s := Run(Initial(baseline, world), before);
             !s.cancelled && Informed(s)
    ensures var (s, r) := (Run(Initial(baseline, world), before), Run(Initial(baseline, world), before + after));
            AllFinishing(after) && Quiet(r) && r.src.world == s.src.world
            && Replay(Forms(baseline), r.sink.dispatched) == Forms(s.src.world)
  {
    hide Run, Inv, Replay, Forms;
    InvReached(baseline, world, before);
    after := SettleFrom(Run(Initial(baseline, world), before));
    RunSplit(Initial(baseline, world), before, after);
    ListenerKnowsTheWorld(baseline, world, before + after);
  }

  lemma {:induction false} RunSplit(s: State, a: seq<Step>, b: seq<Step>)
    ensures Run(s, a + b) == Run(Run(s, a), b)
    decreases |a|
  {
    hide Enabled, Apply;
    if a == [] {
      assert a + b == b;
    } else {
      assert (a + b)[1..] == a[1..] + b;
      RunSplit(if Enabled(s, a[0]) then Apply(s, a[0]) else s, a[1..], b);
    }
  }
}
