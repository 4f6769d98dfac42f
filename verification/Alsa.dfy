/**
 The blocking transfer of one period to or from the kernel, over any sequence of
 kernel answers, and what starting and recovering a stream build on it. A list of
 answers that ends leaves the call unfinished.
 */
module Alsa {
  import Bits

  const EINTR := 4
  const EIO := 5
  const EAGAIN := 11
  const ENODEV := 19
  const EPIPE := 32
  const EBADFD := 77
  const ESTRPIPE := 86

  const NO_PROGRESS_LIMIT: nat := 8
  const RESUME_ATTEMPTS: nat := 64
  const MAX_UINT64: nat := 0xFFFF_FFFF_FFFF_FFFF

  datatype Fault =
    | None
    | Errno(errno: int)
    | Xrun
    | Lost
    | Interrupted
    | BadTransfer
    | BadState
    | Unfinished

  // What one transfer call answers: an error number, or the frames it moved, or a
  // negated error number.
  datatype Io = Failed(errno: int) | Moved(result: int)

  // What one poll answers: an error number, whether the stream has been
  // interrupted by then, and what it says of the descriptor.
  datatype Poll = Poll(errno: int, interrupted: bool, invalid: bool, ready: bool)

  datatype Kernel = Kernel(ios: seq<Io>, polls: seq<Poll>)

  function MapError(errno: int): Fault {
    if errno == EPIPE || errno == ESTRPIPE then Xrun
    else if errno == ENODEV || errno == EBADFD then Lost
    else Errno(errno)
  }

  function RecoverErr(was: int, errno: int): int {
    if errno == EPIPE || errno == ESTRPIPE then errno else was
  }

  // -- Parameters -------------------------------------------------------------------

  datatype Params = Params(rate: int, channels: int, period: int, periods: int, sampleBytes: nat, bufferFrames: nat)

  // The frames the hardware waits for before it starts on its own.
  function StartThreshold(p: Params): nat {
    p.bufferFrames
  }

  predicate Sound(p: Params) {
    && p.rate > 0 && p.channels > 0 && p.period > 0 && p.periods > 0 && p.sampleBytes > 0
    && p.period * p.periods <= MAX_UINT64
    && (p.bufferFrames != 0 ==> p.bufferFrames == p.period * p.periods)
  }

  method ValidatePCMParams(p: Params) returns (ok: bool)
    ensures ok <==> Sound(p)
  {
    if p.rate <= 0 || p.channels <= 0 || p.period <= 0 || p.periods <= 0 || p.sampleBytes == 0 {
      return false;
    }
    Bits.ProductFits(p.period, p.periods, MAX_UINT64);
    if p.periods > MAX_UINT64 / p.period {
      return false;
    }
    var expected := p.period * p.periods;
    if p.bufferFrames != 0 && (p.bufferFrames != expected || p.bufferFrames % p.period != 0) {
      assert expected % p.period == 0 by { WholePeriods(p.period, p.periods); }
      return false;
    }
    return true;
  }

  lemma WholePeriods(period: nat, periods: nat)
    requires period > 0
    ensures period * periods % period == 0
  {
    Bits.DivModUnique(period * periods, period, periods, 0);
  }

  // -- One period ---------------------------------------------------------------------

  // Waiting until the descriptor is ready.
  function Await(polls: seq<Poll>, interruptible: bool): (Fault, seq<Poll>) {
    if polls == [] then (Unfinished, [])
    else
      var p := polls[0];
      if p.errno == EINTR then Await(polls[1..], interruptible)
      else if p.errno != 0 then (MapError(p.errno), polls[1..])
      else if interruptible && p.interrupted then (Interrupted, polls[1..])
      else if p.invalid then (Lost, polls[1..])
      else if p.ready then (None, polls[1..])
      else Await(polls[1..], interruptible)
  }

  function AwaitRecoverErr(polls: seq<Poll>, interruptible: bool, was: int): int {
    if polls == [] then was
    else if polls[0].errno == EINTR then AwaitRecoverErr(polls[1..], interruptible, was)
    else if polls[0].errno != 0 then RecoverErr(was, polls[0].errno)
    else if (interruptible && polls[0].interrupted) || polls[0].invalid || polls[0].ready then was
    else AwaitRecoverErr(polls[1..], interruptible, was)
  }

  // done is how many frames of the period were moved, calls how many transfer
  // calls were issued that no signal cut short.
  datatype Outcome = Outcome(fault: Fault, kernel: Kernel, done: nat, calls: nat, recoverErr: int)

  // The error number an answer stands for, 0 for none.
  function ErrorOf(a: Io): int {
    if a.Failed? then a.errno else if a.result < 0 then -a.result else 0
  }

  predicate Stalls(a: Io) {
    ErrorOf(a) == EAGAIN || a == Moved(0)
  }

  // The transfer of the rest of a period, done frames of it being moved and
  // stalled answers in a row behind.
  function Full(period: nat, k: Kernel, done: nat, stalled: nat, interruptible: bool, was: int): Outcome
    requires done <= period && stalled < NO_PROGRESS_LIMIT
    decreases |k.ios|
  {
    if done == period then Outcome(None, k, done, 0, was)
    else if k.ios == [] then Outcome(Unfinished, k, done, 0, was)
    else
      var a, rest := k.ios[0], Kernel(k.ios[1..], k.polls);
      if ErrorOf(a) == EINTR then Full(period, rest, done, stalled, interruptible, was)
      else if Stalls(a) then
        if stalled + 1 >= NO_PROGRESS_LIMIT then Outcome(Errno(EIO), rest, done, 1, was)
        else
          var (fault, polls) := Await(k.polls, interruptible);
          var recover := AwaitRecoverErr(k.polls, interruptible, was);
          if fault != None then Outcome(fault, Kernel(rest.ios, polls), done, 1, recover)
          else Counted(Full(period, Kernel(rest.ios, polls), done, stalled + 1, interruptible, recover))
      else if a.Failed? || a.result < 0 then
        Outcome(MapError(ErrorOf(a)), rest, done, 1, RecoverErr(was, ErrorOf(a)))
      else if a.result > period - done then Outcome(BadTransfer, rest, done, 1, was)
      else Counted(Full(period, rest, done + a.result, 0, interruptible, was))
  }

  function Counted(o: Outcome): Outcome {
    o.(calls := o.calls + 1)
  }

  // A transfer ends without a fault exactly when the whole period was moved.
  lemma {:induction false} FullMoves(period: nat, k: Kernel, done: nat, stalled: nat, interruptible: bool, was: int)
    requires done <= period && stalled < NO_PROGRESS_LIMIT
    ensures var o := Full(period, k, done, stalled, interruptible, was);
            done <= o.done <= period && (o.fault == None <==> o.done == period)
    decreases |k.ios|
  {
    if done < period && k.ios != [] {
      var a := k.ios[0];
      if ErrorOf(a) == EINTR {
        FullMoves(period, Kernel(k.ios[1..], k.polls), done, stalled, interruptible, was);
      } else if Stalls(a) {
        if stalled + 1 < NO_PROGRESS_LIMIT {
          FullMoves(period, Kernel(k.ios[1..], Await(k.polls, interruptible).1), done, stalled + 1, interruptible,
                    AwaitRecoverErr(k.polls, interruptible, was));
        }
      } else if a.Moved? && 0 < a.result <= period - done {
        FullMoves(period, Kernel(k.ios[1..], k.polls), done + a.result, 0, interruptible, was);
      }
    }
  }

  // Of the calls that no signal cuts short there are at most eight per frame.
  lemma {:induction false} FullBounded(period: nat, k: Kernel, done: nat, stalled: nat, interruptible: bool, was: int)
    requires done <= period && stalled < NO_PROGRESS_LIMIT
    ensures Full(period, k, done, stalled, interruptible, was).calls <= Left(period, done, stalled)
    decreases |k.ios|
  {
    if done < period && k.ios != [] {
      var a := k.ios[0];
      if ErrorOf(a) == EINTR {
        FullBounded(period, Kernel(k.ios[1..], k.polls), done, stalled, interruptible, was);
      } else if Stalls(a) {
        if stalled + 1 < NO_PROGRESS_LIMIT {
          FullBounded(period, Kernel(k.ios[1..], Await(k.polls, interruptible).1), done, stalled + 1, interruptible,
                      AwaitRecoverErr(k.polls, interruptible, was));
        }
      } else if a.Moved? && 0 < a.result <= period - done {
        FullBounded(period, Kernel(k.ios[1..], k.polls), done + a.result, 0, interruptible, was);
      }
    }
  }

  function Left(period: nat, done: nat, stalled: nat): nat
    requires done <= period && stalled < NO_PROGRESS_LIMIT
  {
    if done == period then 0 else NO_PROGRESS_LIMIT * (period - done) - stalled
  }

  lemma CallsPerPeriod(period: nat, k: Kernel, interruptible: bool, was: int)
    ensures Full(period, k, 0, 0, interruptible, was).calls <= NO_PROGRESS_LIMIT * period
  {
    FullBounded(period, k, 0, 0, interruptible, was);
  }

  // However the kernel splits a period into short transfers, it is moved whole.
  lemma {:induction false} SplitsFinish(period: nat, chunks: seq<nat>, k: Kernel, done: nat, interruptible: bool, was: int)
    requires done <= period && done + SumOf(chunks) == period
    requires (forall i :: 0 <= i < |chunks| ==> chunks[i] > 0) && Answers(chunks) <= k.ios
    ensures var o := Full(period, k, done, 0, interruptible, was);
            o.fault == None && o.calls == |chunks| && o.recoverErr == was && o.kernel.polls == k.polls
    decreases |chunks|
  {
    if chunks != [] {
      assert k.ios[0] == Answers(chunks)[0];
      assert Answers(chunks)[1..] == Answers(chunks[1..]);
      SplitsFinish(period, chunks[1..], Kernel(k.ios[1..], k.polls), done + chunks[0], interruptible, was);
    }
  }

  function SumOf(chunks: seq<nat>): nat {
    if chunks == [] then 0 else chunks[0] + SumOf(chunks[1..])
  }

  function Answers(chunks: seq<nat>): (ios: seq<Io>)
    ensures |ios| == |chunks|
  {
    seq(|chunks|, i requires 0 <= i < |chunks| => Moved(chunks[i]))
  }

  // An xrun is reported exactly when its cause is stored for Recover.
  lemma {:induction false} XrunHasCause(period: nat, k: Kernel, done: nat, stalled: nat, interruptible: bool, was: int)
    requires done <= period && stalled < NO_PROGRESS_LIMIT
    ensures var o := Full(period, k, done, stalled, interruptible, was);
            && (o.fault == Xrun ==> o.recoverErr == EPIPE || o.recoverErr == ESTRPIPE)
            && (o.fault != Xrun ==> o.recoverErr == was)
            && o.fault != Errno(EPIPE) && o.fault != Errno(ESTRPIPE) && o.fault != BadState
    decreases |k.ios|
  {
    if done < period && k.ios != [] {
      var a := k.ios[0];
      if ErrorOf(a) == EINTR {
        XrunHasCause(period, Kernel(k.ios[1..], k.polls), done, stalled, interruptible, was);
      } else if Stalls(a) {
        AwaitCause(k.polls, interruptible, was);
        if stalled + 1 < NO_PROGRESS_LIMIT {
          XrunHasCause(period, Kernel(k.ios[1..], Await(k.polls, interruptible).1), done, stalled + 1, interruptible,
                       AwaitRecoverErr(k.polls, interruptible, was));
        }
      } else if a.Moved? && 0 < a.result <= period - done {
        XrunHasCause(period, Kernel(k.ios[1..], k.polls), done + a.result, 0, interruptible, was);
      }
    }
  }

  lemma {:induction false} AwaitCause(polls: seq<Poll>, interruptible: bool, was: int)
    ensures var (fault, recover) := (Await(polls, interruptible).0, AwaitRecoverErr(polls, interruptible, was));
            && (fault == Xrun ==> recover == EPIPE || recover == ESTRPIPE)
            && (fault != Xrun ==> recover == was)
            && fault != Errno(EPIPE) && fault != Errno(ESTRPIPE) && fault != BadState
  {
    if polls != [] {
      AwaitCause(polls[1..], interruptible, was);
    }
  }

  // -- What ends a wait, and what a stall limit is ---------------------------------------

  // A poll that a wait goes on from: cut short by a signal, or with nothing to report.
  predicate Idle(p: Poll, interruptible: bool) {
    p.errno == 4 || (p.errno == 0 && !(interruptible && p.interrupted) && !p.invalid && !p.ready)
  }

  // The fault that a number stands for.
  predicate Stands(errno: int, fault: Fault) {
    match fault
    case Xrun => errno == 32 || errno == 86
    case Lost => errno == 19 || errno == 77
    case Errno(e) => e == errno && errno !in {19, 32, 77, 86}
    case _ => false
  }

  lemma MapStands(errno: int, was: int)
    ensures Stands(errno, MapError(errno))
    ensures RecoverErr(was, errno) == if errno == 32 || errno == 86 then errno else was
  {}

  // A wait takes its answer from the first poll it does not go on from: the error if
  // there is one, else the interrupt if it may be interrupted, else the loss of the
  // descriptor, else that it is ready; what is behind that poll stays.
  lemma {:induction false} AwaitMeans(polls: seq<Poll>, interruptible: bool, was: int, i: nat)
    requires i < |polls| && !Idle(polls[i], interruptible)
    requires forall j :: 0 <= j < i ==> Idle(polls[j], interruptible)
    ensures var (p, fault) := (polls[i], Await(polls, interruptible).0);
            && Await(polls, interruptible).1 == polls[i + 1..]
            && (if p.errno != 0 then Stands(p.errno, fault)
                else if interruptible && p.interrupted then fault == Interrupted
                else if p.invalid then fault == Lost
                else p.ready && fault == None)
            && AwaitRecoverErr(polls, interruptible, was) == (if p.errno == 32 || p.errno == 86 then p.errno else was)
    decreases i
  {
    MapStands(polls[i].errno, was);
    hide MapError, RecoverErr, Stands;
    if i > 0 {
      assert Idle(polls[0], interruptible);
      assert polls[1..][i - 1] == polls[i] && polls[1..][i..] == polls[i + 1..];
      assert forall j :: 0 <= j < i - 1 ==> polls[1..][j] == polls[j + 1];
      AwaitMeans(polls[1..], interruptible, was, i - 1);
    }
  }

  // While every poll is idle it does not end.
  lemma {:induction false} AwaitGoesOn(polls: seq<Poll>, interruptible: bool, was: int)
    requires forall j :: 0 <= j < |polls| ==> Idle(polls[j], interruptible)
    ensures Await(polls, interruptible) == (Unfinished, []) && AwaitRecoverErr(polls, interruptible, was) == was
    decreases |polls|
  {
    if polls != [] {
      assert Idle(polls[0], interruptible);
      assert forall j :: 0 <= j < |polls| - 1 ==> polls[1..][j] == polls[j + 1];
      AwaitGoesOn(polls[1..], interruptible, was);
    }
  }

  predicate IsReady(p: Poll, interruptible: bool) {
    p.errno == 0 && !(interruptible && p.interrupted) && !p.invalid && p.ready
  }

  lemma ReadyAtOnce(polls: seq<Poll>, interruptible: bool, was: int)
    requires polls != [] && IsReady(polls[0], interruptible)
    ensures Await(polls, interruptible) == (None, polls[1..]) && AwaitRecoverErr(polls, interruptible, was) == was
  {}

  // Some stalled answers, each followed by a poll that is ready at once.
  ghost predicate StallsFor(k: Kernel, n: nat, interruptible: bool) {
    && n <= |k.ios| && n <= |k.polls|
    && (forall i :: 0 <= i < n ==> Stalls(k.ios[i]) && ErrorOf(k.ios[i]) != EINTR)
    && forall i :: 0 <= i < n ==> IsReady(k.polls[i], interruptible)
  }

  // Fewer than eight stalls in a row are overcome, and the next answer finds the
  // transfer where it was; the eighth ends it with EIO.
  lemma {:induction false} StallLimit(period: nat, k: Kernel, done: nat, stalled: nat, interruptible: bool, was: int, n: nat)
    requires done < period && stalled < 8 && StallsFor(k, n, interruptible)
    ensures var o := Full(period, k, done, stalled, interruptible, was);
            if stalled + n < 8 then
              var rest := Full(period, Kernel(k.ios[n..], k.polls[n..]), done, stalled + n, interruptible, was);
              o == rest.(calls := rest.calls + n)
            else o.fault == Errno(5) && o.done == done && o.calls == 8 - stalled
    decreases n
  {
    hide Full;
    if n == 0 {
      assert k.ios[0..] == k.ios && k.polls[0..] == k.polls;
    } else {
      assert IsReady(k.polls[0], interruptible) && Stalls(k.ios[0]);
      AnswerStalls(period, k, done, stalled, interruptible, was);
      ReadyAtOnce(k.polls, interruptible, was);
      hide Await, AwaitRecoverErr, Stalls, ErrorOf, IsReady;
      var rest := Kernel(k.ios[1..], k.polls[1..]);
      if stalled + 1 < 8 {
        assert rest.ios[n - 1..] == k.ios[n..] && rest.polls[n - 1..] == k.polls[n..];
        assert StallsFor(rest, n - 1, interruptible);
        StallLimit(period, rest, done, stalled + 1, interruptible, was, n - 1);
      }
    }
  }

  // How the answers end or carry on a transfer, one lemma a kind.

  lemma Ends(period: nat, k: Kernel, done: nat, stalled: nat, interruptible: bool, was: int)
    requires done <= period && stalled < NO_PROGRESS_LIMIT && (done == period || k.ios == [])
    ensures Full(period, k, done, stalled, interruptible, was)
         == Outcome(if done == period then None else Unfinished, k, done, 0, was)
  {}

  lemma AnswerSkips(period: nat, k: Kernel, done: nat, stalled: nat, interruptible: bool, was: int)
    requires done < period && stalled < NO_PROGRESS_LIMIT && k.ios != [] && ErrorOf(k.ios[0]) == EINTR
    ensures Full(period, k, done, stalled, interruptible, was)
         == Full(period, Kernel(k.ios[1..], k.polls), done, stalled, interruptible, was)
  {}

  lemma AnswerStalls(period: nat, k: Kernel, done: nat, stalled: nat, interruptible: bool, was: int)
    requires done < period && stalled < NO_PROGRESS_LIMIT && k.ios != [] && Stalls(k.ios[0])
    ensures var o := Full(period, k, done, stalled, interruptible, was);
            var (fault, polls) := Await(k.polls, interruptible);
            var recover := AwaitRecoverErr(k.polls, interruptible, was);
            if stalled + 1 == NO_PROGRESS_LIMIT
            then o == Outcome(Errno(EIO), Kernel(k.ios[1..], k.polls), done, 1, was)
            else if fault != None then o == Outcome(fault, Kernel(k.ios[1..], polls), done, 1, recover)
            else o == Counted(Full(period, Kernel(k.ios[1..], polls), done, stalled + 1, interruptible, recover))
  {
    hide Await, AwaitRecoverErr;
  }

  lemma AnswerMoves(period: nat, k: Kernel, done: nat, stalled: nat, interruptible: bool, was: int)
    requires done < period && stalled < NO_PROGRESS_LIMIT && k.ios != []
    requires ErrorOf(k.ios[0]) != EINTR && !Stalls(k.ios[0])
    ensures var o := Full(period, k, done, stalled, interruptible, was);
            var a, rest := k.ios[0], Kernel(k.ios[1..], k.polls);
            if a.Failed? || a.result < 0
            then o == Outcome(MapError(ErrorOf(a)), rest, done, 1, RecoverErr(was, ErrorOf(a)))
            else if a.result > period - done then o == Outcome(BadTransfer, rest, done, 1, was)
            else o == Counted(Full(period, rest, done + a.result, 0, interruptible, was))
  {
    hide Await, AwaitRecoverErr, MapError, RecoverErr;
  }

  // -- The code ------------------------------------------------------------------------

  // Positions a to b of the period, one number a byte.
  function Range(a: nat, b: nat): (r: seq<nat>)
    requires a <= b
    ensures |r| == b - a
  {
    seq(b - a, i => a + i)
  }

  lemma RangesJoin(a: nat, b: nat, c: nat)
    requires a <= b <= c
    ensures Range(a, b) + Range(b, c) == Range(a, c)
  {}

  function Bytes(frames: nat, frameBytes: nat): nat {
    frames * frameBytes
  }

  lemma BytesAdd(a: nat, b: nat, frameBytes: nat)
    ensures Bytes(a + b, frameBytes) == Bytes(a, frameBytes) + Bytes(b, frameBytes)
  {}

  lemma RangeGrows(before: seq<nat>, done: nat, more: nat, frameBytes: nat)
    ensures var at, n := Bytes(done, frameBytes), Bytes(more, frameBytes);
            before + Range(0, at) + Range(at, at + n) == before + Range(0, Bytes(done + more, frameBytes))
  {
    BytesAdd(done, more, frameBytes);
    hide Bytes, Range;
    var at, n := Bytes(done, frameBytes), Bytes(more, frameBytes);
    RangesJoin(0, at, at + n);
    assert before + Range(0, at) + Range(at, at + n) == before + (Range(0, at) + Range(at, at + n));
  }

  function Saturating(n: nat): (r: nat)
    requires n <= MAX_UINT64
    ensures r <= MAX_UINT64
  {
    if n == MAX_UINT64 then n else n + 1
  }

  // The bytes of the period the kernel took or gave, by position; the transfer
  // calls issued that no signal cut short; and the frames moved since the hardware
  // was last prepared.
  datatype History = History(passed: seq<nat>, calls: nat, queued: nat)

  class PcmStream {
    const params: Params
    var kernel: Kernel
    var recoverErr: int
    var dropouts: nat
    var started: bool
    var stopped: bool
    ghost var past: History

    ghost predicate Valid()
      reads this
    {
      Sound(params) && params.bufferFrames != 0 && dropouts <= MAX_UINT64
    }

    // The bytes of a frame.
    function FrameBytes(): nat
      requires Sound(params)
    {
      Bytes(params.channels, params.sampleBytes)
    }

    constructor (params: Params, kernel: Kernel)
      requires Sound(params) && params.bufferFrames != 0
      ensures Valid() && this.params == params && this.kernel == kernel
      ensures !started && !stopped && recoverErr == 0 && dropouts == 0 && past == History([], 0, 0)
    {
      this.params, this.kernel, recoverErr, dropouts, past := params, kernel, 0, 0, History([], 0, 0);
      started, stopped := false, false;
    }

    method WaitReady(interruptible: bool) returns (fault: Fault)
      modifies this`kernel, this`recoverErr
      ensures (fault, kernel.polls) == Await(old(kernel.polls), interruptible)
      ensures kernel.ios == old(kernel.ios)
      ensures recoverErr == AwaitRecoverErr(old(kernel.polls), interruptible, old(recoverErr))
    {
      while kernel.polls != []
        invariant Await(kernel.polls, interruptible) == Await(old(kernel.polls), interruptible)
        invariant AwaitRecoverErr(kernel.polls, interruptible, recoverErr)
               == AwaitRecoverErr(old(kernel.polls), interruptible, old(recoverErr))
        invariant kernel.ios == old(kernel.ios)
        decreases |kernel.polls|
      {
        var p := kernel.polls[0];
        kernel := kernel.(polls := kernel.polls[1..]);
        if p.errno == EINTR {
          continue;
        }
        if p.errno != 0 {
          recoverErr := RecoverErr(recoverErr, p.errno);
          return MapError(p.errno);
        }
        if interruptible && p.interrupted {
          return Interrupted;
        }
        if p.invalid {
          return Lost;
        }
        if p.ready {
          return None;
        }
      }
      return Unfinished;
    }

    // The transfer of one period: every byte once and in order, or a fault after
    // the first so many.
    method TransferFull(interruptible: bool) returns (fault: Fault)
      requires Valid()
      modifies this`kernel, this`recoverErr, this`past
      ensures Valid()
      ensures var o := Full(params.period, old(kernel), 0, 0, interruptible, old(recoverErr));
              && fault == o.fault && kernel == o.kernel && recoverErr == o.recoverErr
              && past == History(old(past).passed + Range(0, Bytes(o.done, FrameBytes())),
                                 old(past).calls + o.calls, old(past).queued + o.done)
      ensures (fault == None) == (past.passed == old(past).passed + Range(0, Bytes(params.period, FrameBytes())))
      ensures past.calls <= old(past).calls + NO_PROGRESS_LIMIT * params.period
    {
      ghost var o := Full(params.period, kernel, 0, 0, interruptible, recoverErr);
      FullMoves(params.period, kernel, 0, 0, interruptible, recoverErr);
      CallsPerPeriod(params.period, kernel, interruptible, recoverErr);
      hide Bytes, Range, Full, MapError, RecoverErr, Await, AwaitRecoverErr, ErrorOf;
      NothingYet(past.passed, FrameBytes());
      Partly(o.done, params.period, FrameBytes());
      var framesDone, noProgress := 0, 0;
      while framesDone < params.period && kernel.ios != []
        invariant 0 <= framesDone <= params.period && 0 <= noProgress < NO_PROGRESS_LIMIT
        invariant past.calls >= old(past).calls
        invariant var r := Full(params.period, kernel, framesDone, noProgress, interruptible, recoverErr);
                  o == r.(calls := r.calls + (past.calls - old(past).calls))
        invariant past.passed == old(past).passed + Range(0, Bytes(framesDone, FrameBytes()))
        invariant past.queued == old(past).queued + framesDone
        decreases |kernel.ios|
      {
        var remaining := params.period - framesDone;
        ghost var offset := Bytes(framesDone, FrameBytes());
        var a := kernel.ios[0];
        ghost var before := kernel;
        kernel := kernel.(ios := kernel.ios[1..]);
        if ErrorOf(a) == EINTR {
          AnswerSkips(params.period, before, framesDone, noProgress, interruptible, recoverErr);
          continue;
        }
        past := past.(calls := past.calls + 1);
        if Stalls(a) {
          AnswerStalls(params.period, before, framesDone, noProgress, interruptible, recoverErr);
          noProgress := noProgress + 1;
          if noProgress >= NO_PROGRESS_LIMIT {
            return Errno(EIO);
          }
          var wait := WaitReady(interruptible);
          if wait != None {
            return wait;
          }
          continue;
        }
        AnswerMoves(params.period, before, framesDone, noProgress, interruptible, recoverErr);
        if a.Failed? || a.result < 0 {
          recoverErr := RecoverErr(recoverErr, ErrorOf(a));
          return MapError(ErrorOf(a));
        }
        if a.result > remaining {
          return BadTransfer;
        }
        noProgress := 0;
        RangeGrows(old(past).passed, framesDone, a.result, FrameBytes());
        past := past.(passed := past.passed + Range(offset, offset + Bytes(a.result, FrameBytes())),
                      queued := past.queued + a.result);
        framesDone := framesDone + a.result;
      }
      Ends(params.period, kernel, framesDone, noProgress, interruptible, recoverErr);
      return if framesDone == params.period then None else Unfinished;
    }

    // Silence, period by period, up to the start threshold.
    method Prefill() returns (fault: Fault)
      requires Valid() && past.queued == 0
      modifies this`kernel, this`recoverErr, this`past
      ensures Valid()
      ensures fault == None ==> past.queued == StartThreshold(params)
      ensures fault != None ==> past.queued < StartThreshold(params)
      ensures fault != Errno(EPIPE) && fault != Errno(ESTRPIPE) && fault != BadState
      ensures fault == Xrun ==> recoverErr == EPIPE || recoverErr == ESTRPIPE
      ensures fault != Xrun ==> recoverErr == old(recoverErr)
    {
      hide Full, Bytes, Range;
      for i := 0 to params.periods
        invariant past.queued == Periods(params, i) && recoverErr == old(recoverErr)
        invariant Valid()
      {
        FullMoves(params.period, kernel, 0, 0, false, recoverErr);
        XrunHasCause(params.period, kernel, 0, 0, false, recoverErr);
        PeriodsNext(params, i);
        fault := TransferFull(false);
        if fault != None {
          return;
        }
      }
      AllPeriods(params);
      return None;
    }

    // An xrun counts as a dropout, and its cause is kept for Recover.
    method NoteXrun(fault: Fault) returns (r: Fault)
      requires Valid()
      modifies this`recoverErr, this`dropouts
      ensures Valid()
      ensures r == if fault == Errno(EPIPE) || fault == Errno(ESTRPIPE) then Xrun else fault
      ensures dropouts == if r == Xrun then Saturating(old(dropouts)) else old(dropouts)
      ensures r == Xrun ==> recoverErr != 0
      ensures r != Xrun || (fault == Xrun && old(recoverErr) != 0) ==> recoverErr == old(recoverErr)
    {
      if fault == Xrun {
        dropouts := Saturating(dropouts);
        if recoverErr == 0 {
          recoverErr := EPIPE;
        }
        return Xrun;
      }
      if fault == Errno(EPIPE) || fault == Errno(ESTRPIPE) {
        dropouts := Saturating(dropouts);
        recoverErr := fault.errno;
        return Xrun;
      }
      return fault;
    }

    // Start of a stream with an output. setup is the first error of the calls that
    // set the clock, prepare and link the hardware, 0 if there was none.
    method Start(interrupted: bool, setup: int) returns (fault: Fault)
      requires Valid()
      modifies this
      ensures Valid()
      ensures fault == BadState <==> old(started) || old(stopped) || interrupted
      ensures fault == None ==> started && past.queued == StartThreshold(params) && dropouts == old(dropouts)
      ensures started && !old(started) && fault != None ==> past.queued < StartThreshold(params)
      ensures fault == Xrun && setup == 0 ==> dropouts == Saturating(old(dropouts)) && recoverErr != 0
    {
      if started || stopped || interrupted {
        return BadState;
      }
      if setup != 0 {
        recoverErr := RecoverErr(recoverErr, setup);
        return MapError(setup);
      }
      started, past := true, past.(queued := 0);
      fault := Prefill();
      if fault != None {
        fault := NoteXrun(fault);
      }
    }

    // One resume of one endpoint, retried while the answer is EAGAIN.
    method Resume(answers: seq<int>) returns (resumed: bool, lost: bool)
      requires Valid()
      modifies this`recoverErr
      ensures Valid() && !(resumed && lost)
      ensures resumed <==> Resumes(answers)
    {
      var attempt := 0;
      while attempt < RESUME_ATTEMPTS && attempt < |answers|
        invariant 0 <= attempt <= RESUME_ATTEMPTS && attempt <= |answers|
        invariant forall i :: 0 <= i < attempt ==> answers[i] == EAGAIN
        decreases |answers| - attempt
      {
        if answers[attempt] == 0 {
          return true, false;
        }
        if answers[attempt] != EAGAIN {
          recoverErr := RecoverErr(recoverErr, answers[attempt]);
          return false, MapError(answers[attempt]) == Lost;
        }
        attempt := attempt + 1;
      }
      return false, false;
    }

    // Recover a stream with an output. resumes are the answers of the resume calls
    // by endpoint, prepare the first error of preparing again.
    method Recover(resumes: seq<seq<int>>, prepare: int) returns (fault: Fault)
      requires Valid()
      modifies this
      ensures Valid()
      ensures fault == BadState <==> !old(started) || old(stopped)
      ensures fault == None ==> recoverErr == 0
      // A suspended stream that resumes goes on with what it had queued.
      ensures old(started) && !old(stopped) && old(recoverErr) == ESTRPIPE
              && (forall e :: 0 <= e < |resumes| ==> Resumes(resumes[e])) ==>
                fault == None && past.queued == old(past).queued && past.passed == old(past).passed
      // Any other is prefilled, up to the threshold or not to it.
      ensures fault == None && !(old(recoverErr) == ESTRPIPE && forall e :: 0 <= e < |resumes| ==> Resumes(resumes[e])) ==>
                past.queued == StartThreshold(params)
      ensures fault != None && past.queued != old(past).queued ==> past.queued < StartThreshold(params)
      ensures dropouts == old(dropouts)
    {
      if !started || stopped {
        return BadState;
      }
      var resumeOK := recoverErr == ESTRPIPE;
      if resumeOK {
        for e := 0 to |resumes|
          invariant past.queued == old(past).queued && past.passed == old(past).passed && dropouts == old(dropouts)
          invariant Valid() && resumeOK == forall i :: 0 <= i < e ==> Resumes(resumes[i])
        {
          var resumed, lost := Resume(resumes[e]);
          if lost {
            return Lost;
          }
          if !resumed {
            resumeOK := false;
          }
        }
      }
      if resumeOK {
        recoverErr := 0;
        return None;
      }
      if prepare != 0 {
        recoverErr := RecoverErr(recoverErr, prepare);
        return MapError(prepare);
      }
      past := past.(queued := 0);
      fault := Prefill();
      if fault != None {
        return;
      }
      recoverErr := 0;
    }

    method Commit() returns (fault: Fault)
      requires Valid()
      modifies this`kernel, this`recoverErr, this`past, this`dropouts
      ensures Valid()
      ensures fault == BadState <==> !started || stopped
      ensures started && !stopped ==>
                var o := Full(params.period, old(kernel), 0, 0, false, old(recoverErr));
                && fault == o.fault && past.passed == old(past).passed + Range(0, Bytes(o.done, FrameBytes()))
                && dropouts == (if fault == Xrun then Saturating(old(dropouts)) else old(dropouts))
                && recoverErr == o.recoverErr
    {
      if !started || stopped {
        return BadState;
      }
      hide Full;
      XrunHasCause(params.period, kernel, 0, 0, false, recoverErr);
      fault := TransferFull(false);
      fault := NoteXrun(fault);
    }
  }

  // The endpoint resumes within the attempts it is given.
  predicate Resumes(answers: seq<int>) {
    exists n :: 0 <= n < |answers| && n < RESUME_ATTEMPTS && answers[n] == 0
                && forall i :: 0 <= i < n ==> answers[i] == EAGAIN
  }

  // The frames of i periods.
  function Periods(p: Params, i: int): int {
    p.period * i
  }

  lemma PeriodsNext(p: Params, i: nat)
    requires Sound(p) && i < p.periods && p.bufferFrames != 0
    ensures Periods(p, 0) == 0 && Periods(p, i + 1) == Periods(p, i) + p.period
    ensures Periods(p, i + 1) <= StartThreshold(p)
  {
    Bits.MulMonotone(i + 1, p.periods, p.period);
  }

  lemma AllPeriods(p: Params)
    requires Sound(p) && p.bufferFrames != 0
    ensures Periods(p, p.periods) == StartThreshold(p)
  {}

  lemma NothingYet(before: seq<nat>, frameBytes: nat)
    ensures before + Range(0, Bytes(0, frameBytes)) == before
  {}

  // Fewer frames than the period are fewer bytes.
  lemma Partly(done: nat, period: nat, frameBytes: nat)
    requires done <= period
    ensures done < period && frameBytes > 0 ==> Bytes(done, frameBytes) < Bytes(period, frameBytes)
  {
    BytesAdd(done, period - done, frameBytes);
  }
}
