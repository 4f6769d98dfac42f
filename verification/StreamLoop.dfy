/**
 The loop of the stream thread over any device: it waits, counts dropouts, calls
 back and commits until a stop is requested or something fails. What the device
 does is a list of rounds; a list that ends leaves the loop running. Errors are
 numbers, and 0 is none.
 */
module StreamLoop {

  const WORD: nat := 0x1_0000_0000_0000_0000
  const MAX_UINT64: nat := 0xFFFF_FFFF_FFFF_FFFF
  const MAX_UINT32: nat := 0xFFFF_FFFF

  const ERR_LOST: int := 1
  const ERR_CALLBACK: int := 2
  const ERR_INTERRUPTED: int := 3

  type Counter = n: nat | n <= MAX_UINT64

  // An error that is one.
  type Error = e: int | e != 0 witness 1

  datatype Waited = Ready | WaitXrun | WaitLost | WaitInterrupted | WaitFailed(err: Error)

  datatype Committed = Accepted | CommitXrun | CommitFailed(err: Error)

  // One pass of the loop: what the stop flag says each time it is loaded, and what
  // the device, the conversions and the callback do when they are asked.
  datatype Round = Round(
    stopAtTop: bool, wait: Waited, waitCounter: Counter, stopAfterWait: bool, stopBeforeCallback: bool,
    recoverErr: int, decodeErr: int, panics: bool, encodeErr: int, commit: Committed, commitCounter: Counter)

  // What happens in the device's and the callback's view.
  datatype Event = Dropout(n: nat) | Xrun | Callback | Commit

  datatype End = Running | StopSeen | Failed(err: Error)

  // What a callback is told.
  datatype Time = Time(frame: nat, dropouts: nat, discontinuity: bool)

  // -- The events of one round ----------------------------------------------------------

  // Dropouts since the last reading; a counter that went back started over.
  function Delta(last: Counter, current: Counter): Counter {
    if current >= last then current - last else current
  }

  function Counted(n: nat): seq<Event> {
    if n == 0 then [] else [Dropout(n)]
  }

  datatype Played = Played(events: seq<Event>, last: Counter, end: End)

  function Play(r: Round, last: Counter): Played {
    if r.stopAtTop then Played([], last, StopSeen)
    else
      var seen := Counted(Delta(last, r.waitCounter));
      var now := r.waitCounter;
      match r.wait
      case WaitInterrupted => Played(seen, now, if r.stopAfterWait then StopSeen else Failed(ERR_INTERRUPTED))
      case WaitXrun =>
        if r.recoverErr != 0 then Played(seen, now, Failed(r.recoverErr))
        else Played(seen + [Xrun], now, Running)
      case WaitLost => Played(seen, now, Failed(ERR_LOST))
      case WaitFailed(err) => Played(seen, now, Failed(err))
      case Ready =>
        if r.stopBeforeCallback then Played(seen, now, StopSeen)
        else if r.decodeErr != 0 then Played(seen, now, Failed(r.decodeErr))
        else if r.panics then Played(seen + [Callback], now, Failed(ERR_CALLBACK))
        else if r.encodeErr != 0 then Played(seen + [Callback], now, Failed(r.encodeErr))
        else PlayCommit(r, seen + [Callback], now)
  }

  function PlayCommit(r: Round, before: seq<Event>, now: Counter): Played {
    match r.commit
    case Accepted => Played(before + [Commit], now, Running)
    case CommitFailed(err) => Played(before, now, Failed(err))
    case CommitXrun =>
      var more := if r.commitCounter > now then [Dropout(r.commitCounter - now)] else [];
      var next := if r.commitCounter > now then r.commitCounter else now;
      if r.recoverErr != 0 then Played(before + more, next, Failed(r.recoverErr))
      else Played(before + more + [Xrun], next, Running)
  }

  // The events of a run of rounds, up to the one that ends the loop.
  function Trace(rounds: seq<Round>, last: Counter): Played {
    if rounds == [] then Played([], last, Running) else
      var p := Play(rounds[0], last);
      if p.end != Running then p else
        var rest := Trace(rounds[1..], p.last);
        Played(p.events + rest.events, rest.last, rest.end)
  }

  // -- What the events mean -----------------------------------------------------------------

  function Calls(events: seq<Event>): nat {
    if events == [] then 0
    else Calls(events[..|events| - 1]) + (if events[|events| - 1] == Callback then 1 else 0)
  }

  function Lost(events: seq<Event>): nat {
    if events == [] then 0
    else Lost(events[..|events| - 1]) + (if events[|events| - 1].Dropout? then events[|events| - 1].n else 0)
  }

  predicate Breaks(e: Event) {
    e.Dropout? || e == Xrun
  }

  // The stream broke since it last committed.
  function Broken(events: seq<Event>): bool {
    if events == [] then false else
      match events[|events| - 1]
      case Dropout(_) => true
      case Xrun => true
      case Commit => false
      case Callback => Broken(events[..|events| - 1])
  }

  // Event i broke the stream, and nothing was committed since.
  predicate BreaksSince(events: seq<Event>, i: nat)
    requires i < |events|
  {
    Breaks(events[i]) && Commit !in events[i + 1..]
  }

  lemma {:induction false} BrokenMeans(events: seq<Event>)
    ensures Broken(events) <==> exists i :: 0 <= i < |events| && BreaksSince(events, i)
    decreases |events|
  {
    if events != [] {
      var n := |events| - 1;
      BrokenMeans(events[..n]);
      forall i | 0 <= i < n
        ensures BreaksSince(events, i) <==> events[n] != Commit && BreaksSince(events[..n], i)
      {
        assert events[i + 1..] == events[..n][i + 1..] + [events[n]];
      }
      assert events[n + 1..] == [];
      assert Breaks(events[n]) ==> BreaksSince(events, n);
    }
  }

  function Least(a: nat, b: nat): nat { if a < b then a else b }

  // The frame counter after so many callbacks, a 64-bit word.
  function FrameOf(period: nat, calls: nat): nat {
    period * calls % WORD
  }

  // What the callback after these events is told.
  function TimeAfter(period: nat, events: seq<Event>): Time {
    Time(FrameOf(period, Calls(events)), Least(Least(Lost(events), MAX_UINT64), MAX_UINT32), Broken(events))
  }

  // What all callbacks of a trace are told, in order.
  function Times(period: nat, events: seq<Event>): seq<Time> {
    if events == [] then [] else
      var before := events[..|events| - 1];
      Times(period, before) + (if events[|events| - 1] == Callback then [TimeAfter(period, before)] else [])
  }

  lemma {:induction false} FrameCounts(period: nat, events: seq<Event>, k: nat)
    requires k < |Times(period, events)|
    ensures |Times(period, events)| == Calls(events) && Times(period, events)[k].frame == FrameOf(period, k)
    decreases |events|
  {
    var before := events[..|events| - 1];
    TimesCount(period, events);
    TimesCount(period, before);
    if k < |Times(period, before)| {
      FrameCounts(period, before, k);
    }
  }

  lemma {:induction false} TimesCount(period: nat, events: seq<Event>)
    ensures |Times(period, events)| == Calls(events)
    decreases |events|
  {
    if events != [] {
      TimesCount(period, events[..|events| - 1]);
    }
  }

  // The callback at event i is told what happened before it.
  lemma {:induction false} ToldAt(period: nat, events: seq<Event>, i: nat)
    requires i < |events| && events[i] == Callback
    ensures Calls(events[..i]) < |Times(period, events)|
    ensures Times(period, events)[Calls(events[..i])] == TimeAfter(period, events[..i])
    decreases |events|
  {
    hide TimeAfter;
    var n := |events| - 1;
    TimesCount(period, events[..n]);
    if i < n {
      ToldAt(period, events[..n], i);
      assert events[..n][..i] == events[..i];
    }
  }

  // A load of the stop flag that the round comes to finds it set: at the top, after
  // a wait that was interrupted, or after one that was not cut short.
  predicate FindsStop(r: Round) {
    || r.stopAtTop
    || (r.wait == WaitInterrupted && r.stopAfterWait)
    || (r.wait == Ready && r.stopBeforeCallback)
  }

  // The loop ends as stopped exactly if some round that is played, all before it
  // leaving the loop running, finds the flag set.
  lemma {:induction false} StopsWhenAsked(rounds: seq<Round>, last: Counter)
    ensures Trace(rounds, last).end == StopSeen <==>
              exists i :: 0 <= i < |rounds| && Trace(rounds[..i], last).end == Running && FindsStop(rounds[i])
    decreases |rounds|
  {
    hide Counted, Delta, PlayCommit;
    if rounds != [] {
      var p, rest := Play(rounds[0], last), rounds[1..];
      StopInRound(rounds[0], last);
      assert Trace(rounds[..0], last).end == Running;
      forall i | 0 < i < |rounds|
        ensures Trace(rounds[..i], last).end == if p.end == Running then Trace(rest[..i - 1], p.last).end else p.end
      {
        assert rounds[..i][1..] == rest[..i - 1];
      }
      if p.end == Running {
        StopsWhenAsked(rest, p.last);
        hide Play;
        forall i | 0 <= i < |rest|
          ensures rest[i] == rounds[i + 1] && Trace(rest[..i], p.last).end == Trace(rounds[..i + 1], last).end
        {}
      }
    }
  }

  lemma StopInRound(r: Round, last: Counter)
    ensures Play(r, last).end == StopSeen <==> FindsStop(r)
  {}

  // -- The events, said from the rounds ----------------------------------------------------

  // The callback of a round is reached: no load of the flag found it set, a period is
  // ready, and its input decodes.
  predicate CallsBack(r: Round) {
    !r.stopAtTop && r.wait.Ready? && !r.stopBeforeCallback && r.decodeErr == 0
  }

  // Then the device is asked to commit, unless the callback panics or its output does
  // not encode.
  predicate Commits(r: Round) {
    CallsBack(r) && !r.panics && r.encodeErr == 0
  }

  // A wait or a commit reported an xrun, and the device recovered.
  predicate Recovers(r: Round) {
    && !r.stopAtTop && r.recoverErr == 0
    && (r.wait.WaitXrun? || (Commits(r) && r.commit.CommitXrun?))
  }

  // The loop goes on behind a round that recovered or whose period was accepted.
  predicate GoesOn(r: Round) {
    Recovers(r) || (Commits(r) && r.commit.Accepted?)
  }

  // The rounds that are played: those up to the first that does not go on.
  function PlayedOf(rounds: seq<Round>): seq<Round> {
    if rounds == [] then []
    else if GoesOn(rounds[0]) then [rounds[0]] + PlayedOf(rounds[1..])
    else [rounds[0]]
  }

  function When(b: bool, e: Event): seq<Event> { if b then [e] else [] }

  // How far a reading of the dropout counter is beyond the one before; a smaller
  // reading is a counter that started anew.
  function Gain(was: nat, now: nat): nat { if now < was then now else now - was }

  // The reading a commit that was lost takes, if the counter has moved on.
  function Late(r: Round): nat {
    if Commits(r) && r.commit.CommitXrun? && r.commitCounter > r.waitCounter then r.commitCounter - r.waitCounter else 0
  }

  // The events of one round in their order: what the wait lost, the callback, the
  // commit, what the commit lost, the xrun.
  function Script(r: Round, last: nat): seq<Event> {
    if r.stopAtTop then []
    else
      var lost := Gain(last, r.waitCounter);
      When(lost > 0, Dropout(lost)) + When(CallsBack(r), Callback) + When(Commits(r) && r.commit.Accepted?, Commit)
      + When(Late(r) > 0, Dropout(Late(r))) + When(Recovers(r), Xrun)
  }

  function Scripts(rounds: seq<Round>, last: nat): seq<Event>
    decreases |rounds|
  {
    if rounds == [] then []
    else Script(rounds[0], last) + Scripts(rounds[1..], rounds[0].waitCounter + Late(rounds[0]))
  }

  lemma RoundScript(r: Round, last: Counter)
    ensures Play(r, last).events == Script(r, last)
    ensures Play(r, last).end == Running <==> GoesOn(r)
    ensures !r.stopAtTop ==> Play(r, last).last == r.waitCounter + Late(r)
  {}

  // For every list of rounds, whatever the counter does: the events are those of the
  // rounds played, in order.
  lemma {:induction false} TraceIsScript(rounds: seq<Round>, last: Counter)
    ensures Trace(rounds, last).events == Scripts(PlayedOf(rounds), last)
    decreases |rounds|
  {
    hide Play, Script, GoesOn, Late;
    if rounds != [] {
      var p, rest := Play(rounds[0], last), rounds[1..];
      RoundScript(rounds[0], last);
      NoScript(p.last);
      if GoesOn(rounds[0]) {
        GoesPastTop(rounds[0]);
        TraceIsScript(rest, p.last);
        assert ([rounds[0]] + PlayedOf(rest))[1..] == PlayedOf(rest);
      } else {
        assert [rounds[0]][1..] == [];
        assert Script(rounds[0], last) + [] == Script(rounds[0], last);
      }
    }
  }

  lemma GoesPastTop(r: Round)
    ensures GoesOn(r) ==> !r.stopAtTop
  {}

  lemma NoScript(last: nat)
    ensures Scripts([], last) == []
  {}

  // How often something holds of rounds, and how often an event occurs.
  function Tally(rounds: seq<Round>, p: Round -> bool): nat {
    if rounds == [] then 0 else (if p(rounds[0]) then 1 else 0) + Tally(rounds[1..], p)
  }

  function Occurs(events: seq<Event>, e: Event): nat {
    if events == [] then 0 else Occurs(events[..|events| - 1], e) + (if events[|events| - 1] == e then 1 else 0)
  }

  lemma {:induction false} OccursSplit(a: seq<Event>, b: seq<Event>, e: Event)
    ensures Occurs(a + b, e) == Occurs(a, e) + Occurs(b, e)
    decreases |b|
  {
    if b == [] {
      assert a + b == a;
    } else {
      assert (a + b)[..|a + b| - 1] == a + b[..|b| - 1];
      OccursSplit(a, b[..|b| - 1], e);
    }
  }

  lemma OccursWhen(b: bool, x: Event, e: Event)
    ensures Occurs(When(b, x), e) == if b && x == e then 1 else 0
  {
    assert Occurs([], e) == 0;
  }

  lemma OccursFive(a: seq<Event>, b: seq<Event>, c: seq<Event>, d: seq<Event>, x: seq<Event>, e: Event)
    ensures Occurs(a + b + c + d + x, e) == Occurs(a, e) + Occurs(b, e) + Occurs(c, e) + Occurs(d, e) + Occurs(x, e)
  {
    hide Occurs;
    OccursSplit(a + b + c + d, x, e);
    OccursSplit(a + b + c, d, e);
    OccursSplit(a + b, c, e);
    OccursSplit(a, b, e);
  }

  // What a round's script has of an event other than a dropout.
  lemma OccursInScript(r: Round, last: nat, e: Event)
    requires !e.Dropout?
    ensures Occurs(Script(r, last), e) ==
            (if CallsBack(r) && e == Callback then 1 else 0)
            + (if Commits(r) && r.commit.Accepted? && e == Commit then 1 else 0)
            + (if Recovers(r) && e == Xrun then 1 else 0)
  {
    if r.stopAtTop {
      assert Occurs([], e) == 0;
    } else {
      var lost, late, back := Gain(last, r.waitCounter), Late(r), CallsBack(r);
      var commit, xrun := Commits(r) && r.commit.Accepted?, Recovers(r);
      var a, d := When(lost > 0, Dropout(lost)), When(late > 0, Dropout(late));
      assert Script(r, last) == a + When(back, Callback) + When(commit, Commit) + d + When(xrun, Xrun);
      hide *;
      OccursFive(a, When(back, Callback), When(commit, Commit), d, When(xrun, Xrun), e);
      OccursWhen(lost > 0, Dropout(lost), e);
      OccursWhen(back, Callback, e);
      OccursWhen(commit, Commit, e);
      OccursWhen(late > 0, Dropout(late), e);
      OccursWhen(xrun, Xrun, e);
    }
  }

  lemma {:induction false} OccursInScripts(rounds: seq<Round>, last: nat)
    ensures var events := Scripts(rounds, last);
            && Occurs(events, Callback) == Tally(rounds, CallsBack)
            && Occurs(events, Commit) == Tally(rounds, (r: Round) => Commits(r) && r.commit.Accepted?)
            && Occurs(events, Xrun) == Tally(rounds, Recovers)
    decreases |rounds|
  {
    hide Script, CallsBack, Commits, Recovers, Late;
    if rounds != [] {
      var next := rounds[0].waitCounter + Late(rounds[0]);
      OccursInScripts(rounds[1..], next);
      var s, rest := Script(rounds[0], last), Scripts(rounds[1..], next);
      OccursSplit(s, rest, Callback);
      OccursSplit(s, rest, Commit);
      OccursSplit(s, rest, Xrun);
      OccursInScript(rounds[0], last, Callback);
      OccursInScript(rounds[0], last, Commit);
      OccursInScript(rounds[0], last, Xrun);
    }
  }

  // Over every list of rounds: the callbacks are those of the rounds played that reach
  // one, the commits those that were accepted, each right behind its callback, and the
  // xruns those of a wait or a commit that was recovered.
  lemma EventsCounted(rounds: seq<Round>, last: Counter)
    ensures var (events, played) := (Trace(rounds, last).events, PlayedOf(rounds));
            && Calls(events) == Tally(played, CallsBack)
            && Occurs(events, Commit) == Tally(played, (r: Round) => Commits(r) && r.commit.Accepted?)
            && Occurs(events, Xrun) == Tally(played, Recovers)
    ensures var events := Trace(rounds, last).events;
            forall i :: 0 <= i < |events| && events[i] == Commit ==> i > 0 && events[i - 1] == Callback
  {
    TraceIsScript(rounds, last);
    OccursInScripts(PlayedOf(rounds), last);
    CallsOccur(Trace(rounds, last).events);
    hide Trace, Scripts;
    CommitsFollow(PlayedOf(rounds), last);
  }

  lemma {:induction false} CallsOccur(events: seq<Event>)
    ensures Calls(events) == Occurs(events, Callback)
    decreases |events|
  {
    if events != [] { CallsOccur(events[..|events| - 1]); }
  }

  ghost predicate EachBehindCallback(events: seq<Event>) {
    forall i :: 0 <= i < |events| && events[i] == Commit ==> i > 0 && events[i - 1] == Callback
  }

  lemma {:induction false} CommitsFollow(rounds: seq<Round>, last: nat)
    ensures EachBehindCallback(Scripts(rounds, last))
    decreases |rounds|
  {
    hide Script, Late;
    if rounds != [] {
      var next := rounds[0].waitCounter + Late(rounds[0]);
      CommitsFollow(rounds[1..], next);
      CommitBehind(rounds[0], last);
      var s, rest := Script(rounds[0], last), Scripts(rounds[1..], next);
      forall i | 0 <= i < |s + rest| && (s + rest)[i] == Commit ensures i > 0 && (s + rest)[i - 1] == Callback {
        if i >= |s| { assert rest[i - |s|] == Commit; }
      }
    }
  }

  lemma CommitBehind(r: Round, last: nat)
    ensures EachBehindCallback(Script(r, last))
  {}

  // What ends the loop in a round, with which error.
  predicate FailsWith(r: Round, err: int) {
    && !r.stopAtTop
    && match r.wait
       case WaitInterrupted => !r.stopAfterWait && err == ERR_INTERRUPTED
       case WaitXrun => r.recoverErr != 0 && err == r.recoverErr
       case WaitLost => err == ERR_LOST
       case WaitFailed(e) => err == e
       case Ready =>
         && !r.stopBeforeCallback
         && (|| (r.decodeErr != 0 && err == r.decodeErr)
             || (CallsBack(r) && r.panics && err == ERR_CALLBACK)
             || (CallsBack(r) && !r.panics && r.encodeErr != 0 && err == r.encodeErr)
             || (Commits(r) && r.commit.CommitFailed? && err == r.commit.err)
             || (Commits(r) && r.commit.CommitXrun? && r.recoverErr != 0 && err == r.recoverErr))
  }

  lemma RoundEnds(r: Round, last: Counter)
    ensures Play(r, last).end == Running <==> GoesOn(r)
    ensures Play(r, last).end == StopSeen <==> FindsStop(r)
    ensures forall e: Error :: Play(r, last).end == Failed(e) <==> FailsWith(r, e)
  {}

  // The loop ends with its last round: as stopped if that one found the flag set, and
  // else with the first error it met; it has no end while every round goes on.
  lemma {:induction false} EndsAsLastRound(rounds: seq<Round>, last: Counter)
    ensures var (end, played) := (Trace(rounds, last).end, PlayedOf(rounds));
            && (end == Running <==> forall i :: 0 <= i < |rounds| ==> GoesOn(rounds[i]))
            && (end == StopSeen <==> played != [] && FindsStop(played[|played| - 1]))
            && (forall e: Error :: end == Failed(e) <==> played != [] && FailsWith(played[|played| - 1], e))
    decreases |rounds|
  {
    hide Play, GoesOn, FindsStop, FailsWith;
    if rounds != [] {
      var p, rest := Play(rounds[0], last), rounds[1..];
      RoundEnds(rounds[0], last);
      if GoesOn(rounds[0]) {
        EndsAsLastRound(rest, p.last);
        forall i | 0 <= i < |rounds| ensures GoesOn(rounds[i]) <==> i == 0 || GoesOn(rest[i - 1]) {}
        assert forall i :: 0 <= i < |rest| ==> rest[i] == rounds[i + 1];
      }
    }
  }

  lemma {:induction false} LostSplit(a: seq<Event>, b: seq<Event>)
    ensures Lost(a + b) == Lost(a) + Lost(b)
    decreases |b|
  {
    if b == [] {
      assert a + b == a;
    } else {
      assert (a + b)[..|a + b| - 1] == a + b[..|b| - 1];
      LostSplit(a, b[..|b| - 1]);
    }
  }

  // A counter that only grows.
  predicate Growing(rounds: seq<Round>, last: Counter)
    decreases |rounds|
  {
    rounds == [] ||
    (last <= rounds[0].waitCounter && (rounds[0].commit == CommitXrun ==> rounds[0].waitCounter <= rounds[0].commitCounter)
     && Growing(rounds[1..], Play(rounds[0], last).last))
  }

  lemma LostOne(n: nat)
    ensures Lost([]) == 0 && Lost([Xrun]) == 0 && Lost([Callback]) == 0 && Lost([Commit]) == 0
    ensures Lost([Dropout(n)]) == n && Lost(Counted(n)) == n
  {}

  lemma LostMore(a: seq<Event>, b: seq<Event>, e: Event)
    ensures Lost(a + b + [e]) == Lost(a) + Lost(b) + Lost([e])
  {
    LostSplit(a, b);
    LostSplit(a + b, [e]);
  }

  lemma LostInCommit(r: Round, before: seq<Event>, now: Counter)
    requires r.commit == CommitXrun ==> now <= r.commitCounter
    ensures now + Lost(PlayCommit(r, before, now).events) == PlayCommit(r, before, now).last + Lost(before)
  {
    hide Lost;
    LostOne(if r.commitCounter > now then r.commitCounter - now else 0);
    LostSplit(before, [Commit]);
    var more := if r.commitCounter > now then [Dropout(r.commitCounter - now)] else [];
    LostSplit(before, more);
    LostMore(before, more, Xrun);
  }

  lemma LostInRound(r: Round, last: Counter)
    requires last <= r.waitCounter && (r.commit == CommitXrun ==> r.waitCounter <= r.commitCounter)
    ensures last + Lost(Play(r, last).events) == Play(r, last).last
  {
    hide Lost, PlayCommit, Counted;
    var seen := Counted(Delta(last, r.waitCounter));
    LostOne(Delta(last, r.waitCounter));
    LostSplit(seen, [Xrun]);
    LostSplit(seen, [Callback]);
    LostInCommit(r, seen + [Callback], r.waitCounter);
  }

  // With a growing counter every dropout the device counted is counted once.
  lemma {:induction false} EachDropoutOnce(rounds: seq<Round>, last: Counter)
    requires Growing(rounds, last)
    ensures last + Lost(Trace(rounds, last).events) == Trace(rounds, last).last
    decreases |rounds|
  {
    hide Play, Lost;
    LostOne(0);
    if rounds != [] {
      var p := Play(rounds[0], last);
      LostInRound(rounds[0], last);
      if p.end == Running {
        EachDropoutOnce(rounds[1..], p.last);
        LostSplit(p.events, Trace(rounds[1..], p.last).events);
      }
    }
  }

  // -- The code --------------------------------------------------------------------------------

  // A sum of 64-bit words that stops at the largest.
  method SaturatingAdd(v: Counter, delta: Counter) returns (r: Counter)
    ensures r == Least(v + delta, MAX_UINT64)
  {
    if v == MAX_UINT64 {
      return v;
    }
    var next := (v + delta) % WORD;
    if next < v {
      next := MAX_UINT64;
    }
    return next;
  }

  lemma CountedOne(n: nat)
    requires n > 0
    ensures Counted(n) == [Dropout(n)]
  {}

  lemma Pushed(period: nat, events: seq<Event>, e: Event)
    ensures var all := events + [e];
            && Calls(all) == Calls(events) + (if e == Callback then 1 else 0)
            && Lost(all) == Lost(events) + (if e.Dropout? then e.n else 0)
            && Broken(all) == (if e == Callback then Broken(events) else e != Commit)
            && Times(period, all) == Times(period, events) + if e == Callback then [TimeAfter(period, events)] else []
  {
    assert (events + [e])[..|events|] == events;
  }

  lemma TimeNow(period: nat, events: seq<Event>)
    ensures TimeAfter(period, events)
         == Time(FrameOf(period, Calls(events)), Least(Least(Lost(events), MAX_UINT64), MAX_UINT32), Broken(events))
  {}

  lemma NextFrame(period: nat, calls: nat)
    ensures FrameOf(period, 0) == 0 && (FrameOf(period, calls) + period) % WORD == FrameOf(period, calls + 1)
  {
    assert period * (calls + 1) == period * calls + period;
  }

  class Stream {
    const period: nat
    var failureReady: bool
    var failure: int
    var dropouts: Counter
    var callbacks: Counter
    // History: the events so far, and what the callback was told each time.
    ghost var events: seq<Event>
    ghost var heard: seq<Time>

    constructor (period: nat)
      ensures this.period == period && !failureReady && dropouts == 0 && callbacks == 0 && events == [] && heard == []
    {
      this.period, failureReady, failure, dropouts, callbacks, events, heard := period, false, 0, 0, 0, [], [];
    }

    // The counters and the loop's own variables follow the events.
    ghost predicate InStep(frame: nat, discontinuity: bool)
      reads this
    {
      && frame == FrameOf(period, Calls(events)) && discontinuity == Broken(events)
      && dropouts == Least(Lost(events), MAX_UINT64) && callbacks == Least(Calls(events), MAX_UINT64)
      && heard == Times(period, events)
    }

    // The first failure stays.
    method SetFailure(err: int)
      modifies this`failureReady, this`failure
      ensures failureReady == (old(failureReady) || err != 0)
      ensures failure == if old(failureReady) || err == 0 then old(failure) else err
    {
      if err == 0 {
        return;
      }
      if !failureReady {
        failure, failureReady := err, true;
      }
    }

    // Dropouts the device counted since the last reading.
    method CountDropouts(n: Counter, frame: nat, discontinuity: bool) returns (broken: bool)
      requires InStep(frame, discontinuity)
      modifies this`dropouts, this`events
      ensures InStep(frame, broken) && events == old(events) + Counted(n)
    {
      if n == 0 {
        assert events + [] == events;
        return discontinuity;
      }
      Pushed(period, events, Dropout(n));
      dropouts := SaturatingAdd(dropouts, n);
      events := events + [Dropout(n)];
      return true;
    }

    // The device was recovered from an xrun.
    ghost method NoteXrun(frame: nat, discontinuity: bool)
      requires InStep(frame, discontinuity)
      modifies this`events
      ensures InStep(frame, true) && events == old(events) + [Xrun]
    {
      Pushed(period, events, Xrun);
      events := events + [Xrun];
    }

    method CallBack(frame: nat, discontinuity: bool) returns (next: nat)
      requires InStep(frame, discontinuity)
      modifies this`callbacks, this`events, this`heard
      ensures InStep(next, discontinuity) && events == old(events) + [Callback]
      ensures heard == old(heard) + [Time(frame, Least(dropouts, MAX_UINT32), discontinuity)]
    {
      hide FrameOf, TimeAfter, Lost, Broken, Times, Calls;
      TimeNow(period, events);
      Pushed(period, events, Callback);
      NextFrame(period, Calls(events));
      var shown := if dropouts > MAX_UINT32 then MAX_UINT32 else dropouts;
      callbacks := SaturatingAdd(callbacks, 1);
      heard := heard + [Time(frame, shown, discontinuity)];
      events := events + [Callback];
      next := (frame + period) % WORD;
    }

    // From the commit of a period to the end of the pass.
    method Finish(r: Round, frame: nat, last: Counter, discontinuity: bool)
      returns (newLast: Counter, broken: bool, end: End)
      requires InStep(frame, discontinuity)
      modifies this`dropouts, this`events, this`failureReady, this`failure
      ensures var p := PlayCommit(r, old(events), last);
              InStep(frame, broken) && events == p.events && newLast == p.last && end == p.end
      ensures Failure(end, old(failureReady), old(failure))
    {
      hide FrameOf, Lost, Broken, Times, Calls, TimeAfter, Counted;
      newLast, broken := last, discontinuity;
      if r.commit == CommitXrun {
        if r.commitCounter > last {
          CountedOne(r.commitCounter - last);
          broken := CountDropouts(r.commitCounter - last, frame, broken);
          newLast := r.commitCounter;
        } else {
          assert events + [] == events;
        }
        if r.recoverErr != 0 {
          SetFailure(r.recoverErr);
          return newLast, broken, Failed(r.recoverErr);
        }
        NoteXrun(frame, broken);
        return newLast, true, Running;
      }
      if r.commit.CommitFailed? {
        SetFailure(r.commit.err);
        return newLast, broken, Failed(r.commit.err);
      }
      Pushed(period, events, Commit);
      events := events + [Commit];
      return newLast, false, Running;
    }

    // A failure that ends the loop is stored unless one was before.
    ghost predicate Failure(end: End, ready: bool, was: int)
      reads this
    {
      if end.Failed?
      then failureReady && failure == if ready then was else end.err
      else failureReady == ready && failure == was
    }

    // One pass of the loop.
    method Pass(r: Round, frame: nat, last: Counter, discontinuity: bool)
      returns (newFrame: nat, newLast: Counter, broken: bool, end: End)
      requires InStep(frame, discontinuity)
      modifies this
      ensures var p := Play(r, last);
              InStep(newFrame, broken) && events == old(events) + p.events && newLast == p.last && end == p.end
      ensures Failure(end, old(failureReady), old(failure))
    {
      hide FrameOf, Lost, Broken, Times, Calls, PlayCommit;
      newFrame, newLast, broken := frame, last, discontinuity;
      if r.stopAtTop {
        return newFrame, newLast, broken, StopSeen;
      }
      broken := CountDropouts(Delta(last, r.waitCounter), frame, broken);
      newLast := r.waitCounter;
      if r.wait == WaitInterrupted && r.stopAfterWait {
        return newFrame, newLast, broken, StopSeen;
      }
      if r.wait == WaitXrun {
        if r.recoverErr != 0 {
          SetFailure(r.recoverErr);
          return newFrame, newLast, broken, Failed(r.recoverErr);
        }
        NoteXrun(frame, broken);
        return newFrame, newLast, true, Running;
      }
      if r.wait != Ready {
        var err := if r.wait == WaitLost then ERR_LOST else if r.wait == WaitInterrupted then ERR_INTERRUPTED else r.wait.err;
        SetFailure(err);
        return newFrame, newLast, broken, Failed(err);
      }
      if r.stopBeforeCallback {
        return newFrame, newLast, broken, StopSeen;
      }
      if r.decodeErr != 0 {
        SetFailure(r.decodeErr);
        return newFrame, newLast, broken, Failed(r.decodeErr);
      }
      newFrame := CallBack(frame, broken);
      if r.panics || r.encodeErr != 0 {
        var err := if r.panics then ERR_CALLBACK else r.encodeErr;
        SetFailure(err);
        return newFrame, newLast, broken, Failed(err);
      }
      PlayBehind(r, old(events), Counted(Delta(last, r.waitCounter)) + [Callback], newLast);
      assert events == old(events) + (Counted(Delta(last, r.waitCounter)) + [Callback]);
      newLast, broken, end := Finish(r, newFrame, newLast, broken);
    }

    // The loop. It ends when a stop is seen or something fails, and not before.
    method Loop(rounds: seq<Round>, first: Counter) returns (end: End)
      requires !failureReady && dropouts == 0 && callbacks == 0 && events == [] && heard == []
      modifies this
      ensures events == Trace(rounds, first).events && end == Trace(rounds, first).end
      ensures heard == Times(period, events)
      ensures dropouts == Least(Lost(events), MAX_UINT64) && callbacks == Least(Calls(events), MAX_UINT64)
      ensures end == Running || end == StopSeen || (failureReady && failure == end.err)
      ensures !end.Failed? ==> !failureReady && failure == old(failure)
    {
      hide Play, FrameOf;
      NextFrame(period, 0);
      var lastDropouts, frame, discontinuity := first, 0, false;
      end := Running;
      var i := 0;
      while i < |rounds|
        invariant 0 <= i <= |rounds| && InStep(frame, discontinuity) && end == Running
        invariant var rest := Trace(rounds[i..], lastDropouts);
                  Trace(rounds, first) == Played(events + rest.events, rest.last, rest.end)
        invariant !failureReady && failure == old(failure)
      {
        ghost var before := events;
        ghost var rest := Trace(rounds[i + 1..], Play(rounds[i], lastDropouts).last);
        assert rounds[i..][1..] == rounds[i + 1..];
        assert before + (Play(rounds[i], lastDropouts).events + rest.events)
            == before + Play(rounds[i], lastDropouts).events + rest.events;
        frame, lastDropouts, discontinuity, end := Pass(rounds[i], frame, lastDropouts, discontinuity);
        if end != Running {
          return;
        }
        i := i + 1;
      }
      assert events + [] == events;
    }
  }

  lemma PlayBehind(r: Round, before: seq<Event>, here: seq<Event>, now: Counter)
    ensures var (all, p) := (PlayCommit(r, before + here, now), PlayCommit(r, here, now));
            all == Played(before + p.events, p.last, p.end)
  {
    assert before + here + [Commit] == before + (here + [Commit]);
    assert forall more: seq<Event> :: before + here + more == before + (here + more);
    assert forall more: seq<Event> :: before + here + more + [Xrun] == before + (here + more + [Xrun]);
  }
}
