/**
 The deterministic fake device: a ring of delay+2 committed periods stands for the
 whole output history, and each input period is read from it. Samples are the
 four-byte words of the interleaved buffers; zero is silence.
 */
module Fake {
  import opened Bits
  import opened Options
  import Rings

  type Word = int

  // The host clamps the configured delay to this range.
  const MAX_DELAY: nat := 4096
  const MAX_UINT64: nat := 0xFFFF_FFFF_FFFF_FFFF

  datatype Waited = Ready | Xrun | Interrupted

  datatype Config = Config(delay: nat, period: nat, inChannels: nat, outChannels: nat, looped: bool, periodNano: nat) {
    predicate Valid() {
      delay <= MAX_DELAY && period > 0 && (looped ==> inChannels > 0 && outChannels > 0)
    }

    function Slots(): (n: nat)
      ensures n >= 2
    {
      delay + 2
    }

    function InSize(): nat { period * inChannels }

    function OutSize(): nat { period * outChannels }
  }

  type Play = seq<seq<Word>>

  ghost predicate Shaped(g: Config, play: Play) {
    forall k :: 0 <= k < |play| ==> |play[k]| == g.OutSize()
  }

  function Silence(n: nat): (s: seq<Word>)
    ensures |s| == n && forall i :: 0 <= i < n ==> s[i] == 0
  {
    seq(n, _ => 0)
  }

  // -- What each input period holds -----------------------------------------------------

  // Word i of the input that carries an output period: the channels both have.
  function Shared(g: Config, source: seq<Word>, i: nat): Word
    requires |source| == g.OutSize() && i < g.InSize()
  {
    FrameOf(i, g.inChannels, g.period);
    var ch := i % g.inChannels;
    if ch < g.outChannels then
      InFrame(i / g.inChannels, ch, g.outChannels, g.period);
      source[i / g.inChannels * g.outChannels + ch]
    else 0
  }

  function Carried(g: Config, source: seq<Word>): (input: seq<Word>)
    requires |source| == g.OutSize()
    ensures |input| == g.InSize()
  {
    seq(g.InSize(), i requires 0 <= i < g.InSize() => Shared(g, source, i))
  }

  // What a delay line of the configured delay would give in period k.
  ghost function Ideal(g: Config, play: Play, k: nat): seq<Word>
    requires Shaped(g, play) && k < |play| + g.delay
  {
    if !g.looped || k < g.delay then Silence(g.InSize()) else Carried(g, play[k - g.delay])
  }

  // How far back the ring reaches: with no delay the slot of period k is still the
  // one of period k-2.
  function Lag(g: Config): (n: nat)
    ensures 0 < n <= g.Slots()
  {
    if g.delay == 0 then 2 else g.delay
  }

  // What the device gives in period k, all earlier periods being committed.
  ghost function InputFor(g: Config, play: Play, k: nat): (input: seq<Word>)
    requires Shaped(g, play) && k < |play| + Lag(g)
    ensures |input| == g.InSize()
  {
    if !g.looped || k < Lag(g) then Silence(g.InSize()) else Carried(g, play[k - Lag(g)])
  }

  // Word by word, for every delay of one period or more: a shared channel carries
  // the output of delay periods before.
  lemma DelayLine(g: Config, play: Play, k: nat, frame: nat, ch: nat)
    requires g.Valid() && g.looped && g.delay >= 1 && Shaped(g, play) && k < |play| + g.delay
    requires frame < g.period && ch < g.inChannels
    ensures 0 <= frame * g.inChannels + ch < g.InSize()
    ensures k >= g.delay && ch < g.outChannels ==>
              && 0 <= frame * g.outChannels + ch < g.OutSize()
              && InputFor(g, play, k)[frame * g.inChannels + ch] == play[k - g.delay][frame * g.outChannels + ch]
    ensures k < g.delay || ch >= g.outChannels ==> InputFor(g, play, k)[frame * g.inChannels + ch] == 0
  {
    InFrame(frame, ch, g.inChannels, g.period);
    if ch < g.outChannels {
      InFrame(frame, ch, g.outChannels, g.period);
    }
  }

  // The device is a delay line of its configured delay exactly when that delay is
  // at least one period.
  lemma ExactFromOne(g: Config)
    requires g.Valid() && g.looped
    ensures g.delay >= 1 <==>
              forall play, k :: Shaped(g, play) && 0 <= k < |play| ==> InputFor(g, play, k) == Ideal(g, play, k)
  {
    if g.delay == 0 {
      var ones := seq(g.OutSize(), _ => 1);
      var play := [ones];
      assert Shaped(g, play);
      InFrame(0, 0, g.inChannels, g.period);
      InFrame(0, 0, g.outChannels, g.period);
      assert Ideal(g, play, 0)[0] == 1;
      assert InputFor(g, play, 0)[0] == 0;
    }
  }

  // -- The ring ----------------------------------------------------------------------------

  // Where input frame f begins.
  function FrameAt(g: Config, f: nat): nat {
    f * g.inChannels
  }

  lemma Frames(g: Config, f: nat)
    ensures FrameAt(g, 0) == 0 && FrameAt(g, g.period) == g.InSize()
    ensures FrameAt(g, f + 1) == FrameAt(g, f) + g.inChannels
  {}

  lemma FrameFits(g: Config, f: nat)
    requires f < g.period
    ensures FrameAt(g, f) + g.inChannels <= g.InSize()
  {
    MulMonotone(f + 1, g.period, g.inChannels);
  }

  // Where slot s begins.
  function Begin(g: Config, s: nat): nat {
    s * g.OutSize()
  }

  lemma SlotFits(g: Config, s: nat)
    requires s < g.Slots()
    ensures Begin(g, s) + g.OutSize() <= Begin(g, g.Slots())
  {
    MulMonotone(s + 1, g.Slots(), g.OutSize());
  }

  lemma SlotsApart(g: Config, s: nat, r: nat)
    requires s < r
    ensures Begin(g, s) + g.OutSize() <= Begin(g, r)
  {
    MulMonotone(s + 1, r, g.OutSize());
  }

  ghost predicate SlotHolds(g: Config, ring: seq<Word>, s: nat, source: seq<Word>) {
    Begin(g, s) + g.OutSize() <= |ring| && ring[Begin(g, s)..Begin(g, s) + g.OutSize()] == source
  }

  // The ring holds the last slots periods of the history.
  ghost predicate RingHolds(g: Config, ring: seq<Word>, outputs: Play) {
    forall p {:trigger outputs[p]} :: 0 <= p < |outputs| && |outputs| <= p + g.Slots() ==>
      SlotHolds(g, ring, p % g.Slots(), outputs[p])
  }

  ghost predicate ValidMarks(g: Config, valid: seq<bool>, n: nat)
    requires |valid| == g.Slots()
  {
    forall s :: 0 <= s < g.Slots() ==> (valid[s] <==> s < n)
  }

  // The slot that period k reads was written exactly when the lag has passed, and
  // then holds the period the lag ago.
  lemma SourceSlot(g: Config, ring: seq<Word>, valid: seq<bool>, outputs: Play)
    requires |valid| == g.Slots() && ValidMarks(g, valid, |outputs|) && RingHolds(g, ring, outputs)
    requires |outputs| >= g.delay
    ensures var k := |outputs|;
            var slot := (k - g.delay) % g.Slots();
            && (valid[slot] <==> k >= Lag(g))
            && (k >= Lag(g) ==> SlotHolds(g, ring, slot, outputs[k - Lag(g)]))
  {
    hide SlotHolds;
    var k, slots := |outputs|, g.Slots();
    if k >= Lag(g) {
      LagSlot(g, k);
      assert outputs[k - Lag(g)] == outputs[k - Lag(g)];
    } else {
      assert g.delay == 0 && k % 2 == k;
    }
  }

  // The slot of delay periods ago is that of the lag ago, and in use by then.
  lemma LagSlot(g: Config, k: nat)
    requires k >= Lag(g)
    ensures (k - g.delay) % g.Slots() == (k - Lag(g)) % g.Slots() < k
  {
    if g.delay == 0 {
      assert (k - 2) % 2 == k % 2;
    } else if k - g.delay < g.Slots() {
      SmallMod(k - g.delay, g.Slots());
    }
  }

  lemma SmallMod(a: nat, n: nat)
    requires a < n
    ensures a % n == a
  {}

  lemma LoopedHasOutput(g: Config)
    requires g.Valid()
    ensures g.looped ==> g.OutSize() > 0 && Begin(g, g.Slots()) > 0
  {
    if g.looped {
      InFrame(0, 0, g.outChannels, g.period);
      SlotFits(g, 0);
    }
  }

  lemma MarksNext(g: Config, valid: seq<bool>, n: nat)
    requires |valid| == g.Slots() && ValidMarks(g, valid, n)
    ensures ValidMarks(g, valid[n % g.Slots() := true], n + 1)
  {}

  // One slot of the ring is overwritten.
  ghost predicate Written(g: Config, before: seq<Word>, after: seq<Word>, slot: nat, period: seq<Word>) {
    && |after| == |before| && SlotHolds(g, after, slot, period)
    && forall j {:trigger after[j]} ::
         0 <= j < |after| && (j < Begin(g, slot) || Begin(g, slot) + g.OutSize() <= j) ==> after[j] == before[j]
  }

  lemma OtherSlot(g: Config, before: seq<Word>, after: seq<Word>, slot: nat, period: seq<Word>, s: nat, source: seq<Word>)
    requires Written(g, before, after, slot, period) && s != slot && SlotHolds(g, before, s, source)
    ensures SlotHolds(g, after, s, source)
  {
    if s < slot { SlotsApart(g, s, slot); } else { SlotsApart(g, slot, s); }
    hide Begin;
    var b, n := Begin(g, s), g.OutSize();
    assert after[b..b + n] == before[b..b + n];
  }

  // Committing one more period keeps the ring: the slot it takes is that of the
  // period falling out of it.
  lemma RingKept(g: Config, before: seq<Word>, after: seq<Word>, outputs: Play, period: seq<Word>)
    requires RingHolds(g, before, outputs) && Written(g, before, after, |outputs| % g.Slots(), period)
    ensures RingHolds(g, after, outputs + [period])
  {
    hide Written, SlotHolds;
    var n, slots, all := |outputs|, g.Slots(), outputs + [period];
    forall p {:trigger all[p]} | 0 <= p < |all| && |all| <= p + slots
      ensures SlotHolds(g, after, p % slots, all[p])
    {
      if p == n {
        NewSlot(g, before, after, n % slots, period);
      } else {
        Rings.SlotsDiffer(p, n, slots);
        assert SlotHolds(g, before, p % slots, outputs[p]);
        OtherSlot(g, before, after, n % slots, period, p % slots, outputs[p]);
      }
    }
  }

  lemma NewSlot(g: Config, before: seq<Word>, after: seq<Word>, slot: nat, period: seq<Word>)
    requires Written(g, before, after, slot, period)
    ensures SlotHolds(g, after, slot, period)
  {}

  lemma SlotWords(g: Config, ring: seq<Word>, s: nat, source: seq<Word>)
    requires SlotHolds(g, ring, s, source)
    ensures |source| == g.OutSize()
    ensures forall i :: 0 <= i < g.OutSize() ==> ring[Begin(g, s) + i] == source[i]
  {
    var b, n := Begin(g, s), g.OutSize();
    hide Begin, Config.OutSize;
    assert forall i {:trigger ring[b..b + n][i]} :: 0 <= i < n ==> ring[b + i] == ring[b..b + n][i];
  }

  lemma SharedAt(g: Config, source: seq<Word>, frame: nat, ch: nat)
    requires |source| == g.OutSize() && frame < g.period && ch < g.inChannels
    ensures FrameAt(g, frame) + ch < g.InSize()
    ensures ch < g.outChannels ==>
              && 0 <= frame * g.outChannels + ch < g.OutSize()
              && Shared(g, source, FrameAt(g, frame) + ch) == source[frame * g.outChannels + ch]
    ensures ch >= g.outChannels ==> Shared(g, source, FrameAt(g, frame) + ch) == 0
  {
    InFrame(frame, ch, g.inChannels, g.period);
    if ch < g.outChannels {
      InFrame(frame, ch, g.outChannels, g.period);
    }
  }

  // A dropout injected for a period, and the last stall.
  datatype Faults = Faults(stall: Option<nat>, dropped: bool) {
    // A stall longer than a period is a fault, and so is a dropout.
    predicate Met(periodNano: nat) {
      dropped || (stall.Some? && stall.value > periodNano)
    }
  }

  class FakeStream {
    const g: Config
    const input: array<Word>
    const out: array<Word>
    const loopback: array<Word>
    const loopbackValid: array<bool>
    var periodIndex: nat
    var pendingToken: bool
    var faultReported: bool
    var dropInput: bool
    var virtualNano: int
    var dropouts: nat
    // The faults injected and not met yet: stalls by period, and dropouts.
    var stalls: map<nat, nat>
    var drops: set<nat>
    // History: the periods committed.
    ghost var outputs: Play

    ghost predicate Shape()
      reads this
    {
      && g.Valid() && dropouts <= MAX_UINT64
      && input.Length == g.InSize() && out.Length == g.OutSize() && loopbackValid.Length == g.Slots()
      && loopback.Length == (if g.looped then Begin(g, g.Slots()) else 0)
      && input != out && input != loopback && out != loopback
      && Shaped(g, outputs) && |outputs| == periodIndex
    }

    ghost predicate Valid()
      reads this, loopback, loopbackValid
    {
      && Shape()
      && (g.looped ==> RingHolds(g, loopback[..], outputs) && ValidMarks(g, loopbackValid[..], periodIndex))
    }

    constructor (g: Config)
      requires g.Valid()
      ensures Valid() && this.g == g && fresh(input) && fresh(out) && fresh(loopback) && fresh(loopbackValid)
      ensures outputs == [] && !pendingToken && !faultReported && !dropInput
      ensures stalls == map[] && drops == {} && dropouts == 0
    {
      this.g := g;
      input, out := new Word[g.InSize()](_ => 0), new Word[g.OutSize()](_ => 0);
      loopback := new Word[if g.looped then Begin(g, g.Slots()) else 0](_ => 0);
      loopbackValid := new bool[g.Slots()](_ => false);
      periodIndex, pendingToken, faultReported, dropInput, virtualNano, dropouts := 0, false, false, false, 0, 0;
      stalls, drops, outputs := map[], {}, [];
    }

    method InjectStall(atPeriod: nat, duration: nat)
      requires Valid()
      modifies this`stalls
      ensures Valid() && stalls == old(stalls)[atPeriod := duration]
      ensures forall k :: FaultsAt(k) ==
                if k == atPeriod then Faults(Some(duration), old(FaultsAt(k)).dropped) else old(FaultsAt(k))
    {
      stalls := stalls[atPeriod := duration];
    }

    method InjectDropout(atPeriod: nat)
      requires Valid()
      modifies this`drops
      ensures Valid() && drops == old(drops) + {atPeriod}
      ensures forall k :: FaultsAt(k) == if k == atPeriod then old(FaultsAt(k)).(dropped := true) else old(FaultsAt(k))
    {
      drops := drops + {atPeriod};
    }

    // The faults injected for period k and not met yet.
    function FaultsAt(k: nat): Faults
      reads this`drops, this`stalls
    {
      Faults(if k in stalls then Some(stalls[k]) else None, k in drops)
    }

    // released tells whether a period is released before the stream is interrupted.
    method Wait(released: bool) returns (r: Waited)
      requires Valid()
      modifies this, input
      ensures Valid() && outputs == old(outputs)
      ensures !old(pendingToken) && !released ==>
                r == Interrupted && !pendingToken && input[..] == old(input[..])
                && dropInput == old(dropInput) && faultReported == old(faultReported)
      ensures (old(pendingToken) || released) ==>
                && pendingToken
                && (r == Xrun <==> !old(faultReported)
                                   && old(periodIndex in drops
                                          || (periodIndex in stalls && stalls[periodIndex] > g.periodNano)))
                && r != Interrupted && faultReported == (r == Xrun)
      ensures r == Xrun ==> dropInput
      ensures r == Ready ==>
                && input[..] == (if old(dropInput) then Silence(g.InSize()) else InputFor(g, outputs, periodIndex))
                && !dropInput
      ensures periodIndex == old(periodIndex)
      ensures dropouts == if r != Xrun || old(dropouts) == MAX_UINT64 then old(dropouts) else old(dropouts) + 1
      // Looked at once, the faults of the period are gone, and those of others stay; a
      // stall has moved the virtual clock.
      ensures var looked := (old(pendingToken) || released) && !old(faultReported);
              && stalls == (if looked then old(stalls - {periodIndex}) else old(stalls))
              && drops == (if looked then old(drops - {periodIndex}) else old(drops))
              && virtualNano == old(virtualNano)
                                + if looked && old(periodIndex in stalls) then old(stalls)[periodIndex] else 0
      ensures forall k :: k != periodIndex ==> FaultsAt(k) == old(FaultsAt(k))
    {
      hide Begin, Config.InSize, Config.OutSize, RingHolds, ValidMarks, InputFor, Silence;
      if !pendingToken {
        if !released {
          return Interrupted;
        }
        pendingToken := true;
      }
      if !faultReported {
        var fault := TakeFaults();
        if fault {
          dropouts := if dropouts == MAX_UINT64 then dropouts else dropouts + 1;
          dropInput, faultReported := true, true;
          return Xrun;
        }
      }
      faultReported := false;
      FillInput();
      return Ready;
    }

    // The faults of this period are met once; a stall moves the virtual clock.
    method TakeFaults() returns (fault: bool)
      modifies this`stalls, this`drops, this`virtualNano
      ensures fault == old(periodIndex in drops || (periodIndex in stalls && stalls[periodIndex] > g.periodNano))
      ensures stalls == old(stalls - {periodIndex}) && drops == old(drops - {periodIndex})
      ensures virtualNano == old(virtualNano) + if old(periodIndex in stalls) then old(stalls)[periodIndex] else 0
    {
      fault := periodIndex in drops || (periodIndex in stalls && stalls[periodIndex] > g.periodNano);
      if periodIndex in stalls {
        virtualNano := virtualNano + stalls[periodIndex];
      }
      stalls, drops := stalls - {periodIndex}, drops - {periodIndex};
    }

    method FillInput()
      requires Valid()
      modifies this`dropInput, input
      ensures Valid() && !dropInput
      ensures input[..] == if old(dropInput) then Silence(g.InSize()) else InputFor(g, outputs, periodIndex)
    {
      hide Begin, Config.InSize, Config.OutSize, RingHolds, ValidMarks, SlotHolds, Carried;
      for i := 0 to input.Length
        invariant dropInput == old(dropInput) && forall j :: 0 <= j < i ==> input[j] == 0
      {
        input[i] := 0;
      }
      assert input[..] == Silence(g.InSize());
      if dropInput || !g.looped {
        dropInput := false;
        return;
      }
      if periodIndex < g.delay {
        return;
      }
      SourceSlot(g, loopback[..], loopbackValid[..], outputs);
      var slot := (periodIndex - g.delay) % g.Slots();
      if !loopbackValid[slot] {
        return;
      }
      CopyPeriod(slot, outputs[periodIndex - Lag(g)]);
    }

    // The shared channels of a slot, frame by frame, into a silent input.
    method CopyPeriod(slot: nat, ghost source: seq<Word>)
      requires Shape() && g.looped && slot < g.Slots() && SlotHolds(g, loopback[..], slot, source)
      requires forall i :: 0 <= i < input.Length ==> input[i] == 0
      modifies input
      ensures input[..] == Carried(g, source)
    {
      hide Begin, FrameAt, Config.InSize, Config.OutSize, Shared;
      SlotFits(g, slot);
      Frames(g, 0);
      var base := Begin(g, slot);
      SlotWords(g, loopback[..], slot, source);
      for frame := 0 to g.period
        invariant forall i :: 0 <= i < input.Length ==>
                    input[i] == if i < FrameAt(g, frame) then Shared(g, source, i) else 0
      {
        Frames(g, frame);
        FrameFits(g, frame);
        CopyFrame(base, frame, source);
      }
    }

    method CopyFrame(base: nat, frame: nat, ghost source: seq<Word>)
      requires Shape() && frame < g.period && |source| == g.OutSize() && base + g.OutSize() <= loopback.Length
      requires forall i :: 0 <= i < g.OutSize() ==> loopback[base + i] == source[i]
      requires g.inChannels > 0 && FrameAt(g, frame) + g.inChannels <= input.Length
      requires forall i :: 0 <= i < input.Length ==>
                 input[i] == if i < FrameAt(g, frame) then Shared(g, source, i) else 0
      modifies input
      ensures forall i :: 0 <= i < input.Length ==>
                input[i] == if i < FrameAt(g, frame) + g.inChannels then Shared(g, source, i) else 0
    {
      hide Begin, Shared, FrameAt, Config.InSize, Config.OutSize;
      var from := FrameAt(g, frame);
      for ch := 0 to g.inChannels
        invariant forall i :: 0 <= i < input.Length ==> input[i] == if i < from + ch then Shared(g, source, i) else 0
      {
        SharedAt(g, source, frame, ch);
        if ch < g.outChannels {
          input[from + ch] := loopback[base + (frame * g.outChannels + ch)];
        }
      }
    }

    method StorePeriod(slot: nat)
      requires Shape() && g.looped && slot < g.Slots() && Begin(g, slot) + g.OutSize() <= loopback.Length
      modifies loopback
      ensures Written(g, old(loopback[..]), loopback[..], slot, out[..])
    {
      var base := Begin(g, slot);
      for i := 0 to out.Length
        invariant forall j :: 0 <= j < loopback.Length ==>
                    loopback[j] == if base <= j < base + i then out[j - base] else old(loopback[j])
      {
        loopback[base + i] := out[i];
      }
    }

    // The period in out is committed.
    method Commit() returns (ok: bool)
      requires Valid()
      modifies this, loopback, loopbackValid
      ensures Valid() && ok == old(pendingToken)
      ensures outputs == if ok then old(outputs) + [out[..]] else old(outputs)
      ensures ok ==> !pendingToken && !dropInput
      ensures dropouts == old(dropouts) && virtualNano == old(virtualNano) + if ok then g.periodNano else 0
      ensures !ok ==> dropInput == old(dropInput)
      ensures faultReported == old(faultReported) && stalls == old(stalls) && drops == old(drops)
    {
      hide Begin, Config.InSize, Config.OutSize, RingHolds, Written, ValidMarks;
      if !pendingToken {
        return false;
      }
      LoopedHasOutput(g);
      if out.Length > 0 {
        var slot := periodIndex % g.Slots();
        if loopback.Length > 0 {
          SlotFits(g, slot);
          ghost var before := loopback[..];
          StorePeriod(slot);
          RingKept(g, before, loopback[..], outputs, out[..]);
          MarksNext(g, loopbackValid[..], periodIndex);
          loopbackValid[slot] := true;
        }
      }
      pendingToken, dropInput := false, false;
      periodIndex, virtualNano := periodIndex + 1, virtualNano + g.periodNano;
      outputs := outputs + [out[..]];
      return true;
    }
  }

  // -- Runs ----------------------------------------------------------------------------------

  datatype Injection = Stall(at: nat, duration: nat) | Drop(at: nat)

  // The faults that a list of injections leaves for period k: any dropout, and the
  // last stall.
  function FaultsOf(injected: seq<Injection>, k: nat): Faults {
    if injected == [] then Faults(None, false) else
      var before := FaultsOf(injected[..|injected| - 1], k);
      match injected[|injected| - 1]
      case Stall(at, duration) => if at == k then before.(stall := Some(duration)) else before
      case Drop(at) => if at == k then before.(dropped := true) else before
  }

  // Injection i is the last stall for period k.
  ghost predicate LastStall(injected: seq<Injection>, k: nat, i: nat) {
    && i < |injected| && injected[i].Stall? && injected[i].at == k
    && forall j :: i < j < |injected| ==> !(injected[j].Stall? && injected[j].at == k)
  }

  // A dropout was injected for period k, or its last stall is longer than a period.
  ghost predicate Struck(injected: seq<Injection>, k: nat, periodNano: nat) {
    Drop(k) in injected || exists i: nat :: LastStall(injected, k, i) && injected[i].duration > periodNano
  }

  lemma {:induction false} FaultsMean(injected: seq<Injection>, k: nat)
    ensures FaultsOf(injected, k).dropped <==> Drop(k) in injected
    ensures match FaultsOf(injected, k).stall
            case None => forall i: nat :: !LastStall(injected, k, i)
            case Some(d) => exists i: nat :: LastStall(injected, k, i) && injected[i].duration == d
  {
    if injected != [] {
      var n := |injected| - 1;
      var before := injected[..n];
      assert injected == before + [injected[n]];
      FaultsMean(before, k);
      if injected[n].Stall? && injected[n].at == k {
        assert LastStall(injected, k, n);
      } else {
        assert forall i: nat :: LastStall(injected, k, i) ==> LastStall(before, k, i);
        if FaultsOf(before, k).stall.Some? {
          var i: nat :| LastStall(before, k, i) && before[i].duration == FaultsOf(before, k).stall.value;
          assert LastStall(injected, k, i);
        }
      }
    }
  }

  lemma OneLastStall(injected: seq<Injection>, k: nat, i: nat, j: nat)
    requires LastStall(injected, k, i) && LastStall(injected, k, j)
    ensures i == j
  {}

  // The faults that are met are those injected.
  lemma MetMeans(injected: seq<Injection>, k: nat, periodNano: nat)
    ensures FaultsOf(injected, k).Met(periodNano) <==> Struck(injected, k, periodNano)
  {
    FaultsMean(injected, k);
    hide LastStall, FaultsOf;
    forall i: nat, j: nat | LastStall(injected, k, i) && LastStall(injected, k, j) ensures i == j {
      OneLastStall(injected, k, i, j);
    }
  }

  // One turn of a stream thread: faults are injected before it waits and while it
  // has the period, which it plays.
  datatype Turn = Turn(before: seq<Injection>, during: seq<Injection>, period: seq<Word>)

  // The faults injected by the time period k is waited for.
  function InjectedBy(turns: seq<Turn>, k: nat): seq<Injection>
    requires k < |turns|
  {
    InjectedIn(turns[..k]) + turns[k].before
  }

  function InjectedIn(turns: seq<Turn>): seq<Injection> {
    if turns == [] then [] else
      var last := turns[|turns| - 1];
      InjectedIn(turns[..|turns| - 1]) + last.before + last.during
  }

  function Played(turns: seq<Turn>): (play: Play)
    ensures |play| == |turns|
  {
    seq(|turns|, k requires 0 <= k < |turns| => turns[k].period)
  }

  // A stream thread plays periods over a device while faults are injected between
  // its waits; it recovers from an xrun by waiting again. Input period k is silence
  // if a fault was injected for it by the time it was waited for, and else what the
  // history gives. Each such period counts as one dropout.
  method RunPeriods(s: FakeStream, turns: seq<Turn>) returns (ghost inputs: Play)
    requires s.Valid() && s.outputs == [] && !s.pendingToken && !s.faultReported && !s.dropInput
    requires s.stalls == map[] && s.drops == {} && s.dropouts == 0 && Shaped(s.g, Played(turns))
    modifies s, s.input, s.out, s.loopback, s.loopbackValid
    ensures s.Valid() && s.outputs == Played(turns) && |inputs| == |turns|
    ensures forall k :: 0 <= k < |turns| ==> inputs[k] == Given(s.g, turns, k)
    ensures s.dropouts == Capped(Strikes(turns, |turns|, s.g.periodNano))
  {
    hide FaultsOf, Struck, InputFor;
    inputs := [];
    NoFaults(s);
    for k := 0 to |turns|
      invariant s.Valid() && s.outputs == Played(turns)[..k] && |inputs| == k
      invariant !s.pendingToken && !s.faultReported && !s.dropInput
      invariant forall i :: k <= i ==> s.FaultsAt(i) == FaultsOf(InjectedIn(turns[..k]), i)
      invariant forall i :: 0 <= i < k ==> inputs[i] == Given(s.g, turns, i)
      invariant s.dropouts == Capped(Strikes(turns, k, s.g.periodNano))
    {
      ghost var was := InjectedIn(turns[..k]);
      InjectedNext(turns, k);
      InjectAll(s, turns[k].before, was, k);
      assert |Played(turns)[k]| == s.g.OutSize();
      OnePeriod(s, turns[k], was + turns[k].before);
      assert Played(turns)[..k + 1] == Played(turns)[..k] + [turns[k].period];
      inputs := inputs + [s.input[..]];
    }
    assert Played(turns)[..|turns|] == Played(turns);
  }

  // What period k of a run is given.
  ghost function Given(g: Config, turns: seq<Turn>, k: nat): seq<Word>
    requires k < |turns| && Shaped(g, Played(turns))
  {
    if Struck(InjectedBy(turns, k), k, g.periodNano) then Silence(g.InSize())
    else InputFor(g, Played(turns)[..k], k)
  }

  // How many of the first n periods are struck.
  ghost function Strikes(turns: seq<Turn>, n: nat, periodNano: nat): nat
    requires n <= |turns|
  {
    if n == 0 then 0
    else Strikes(turns, n - 1, periodNano) + if Struck(InjectedBy(turns, n - 1), n - 1, periodNano) then 1 else 0
  }

  // A count that stops at the greatest word.
  function Capped(n: nat): nat {
    if n > MAX_UINT64 then MAX_UINT64 else n
  }

  lemma NoFaults(s: FakeStream)
    requires s.stalls == map[] && s.drops == {}
    ensures forall i: nat :: s.FaultsAt(i) == FaultsOf(InjectedIn([]), i)
  {}

  lemma InjectedNext(turns: seq<Turn>, k: nat)
    requires k < |turns|
    ensures InjectedIn(turns[..k + 1]) == InjectedIn(turns[..k]) + turns[k].before + turns[k].during
  {
    assert turns[..k + 1][..k] == turns[..k];
  }

  lemma FaultsNext(injected: seq<Injection>, one: Injection, k: nat)
    ensures FaultsOf(injected + [one], k) ==
            match one
            case Stall(at, duration) =>
              if at == k then FaultsOf(injected, k).(stall := Some(duration)) else FaultsOf(injected, k)
            case Drop(at) => if at == k then FaultsOf(injected, k).(dropped := true) else FaultsOf(injected, k)
  {
    assert (injected + [one])[..|injected|] == injected;
  }

  // A list of injections, over those that were left.
  method InjectAll(s: FakeStream, list: seq<Injection>, ghost was: seq<Injection>, ghost from: nat)
    requires s.Valid() && forall i :: from <= i ==> s.FaultsAt(i) == FaultsOf(was, i)
    modifies s`stalls, s`drops
    ensures s.Valid() && forall i :: from <= i ==> s.FaultsAt(i) == FaultsOf(was + list, i)
  {
    hide FaultsOf;
    assert was + list[..0] == was;
    for n := 0 to |list|
      invariant s.Valid() && forall i :: from <= i ==> s.FaultsAt(i) == FaultsOf(was + list[..n], i)
    {
      forall i: nat { FaultsNext(was + list[..n], list[n], i); }
      assert was + list[..n] + [list[n]] == was + list[..n + 1];
      match list[n]
      case Stall(at, duration) => s.InjectStall(at, duration);
      case Drop(at) => s.InjectDropout(at);
    }
    assert list[..|list|] == list;
  }

  method Fill(out: array<Word>, period: seq<Word>)
    requires out.Length == |period|
    modifies out
    ensures out[..] == period
  {
    for i := 0 to out.Length
      invariant out[..i] == period[..i]
    {
      out[i] := period[i];
    }
  }

  lemma ThisPeriod(s: FakeStream, injected: seq<Injection>)
    requires s.FaultsAt(s.periodIndex) == FaultsOf(injected, s.periodIndex)
    ensures FaultsOf(injected, s.periodIndex).Met(s.g.periodNano) <==>
              s.periodIndex in s.drops || (s.periodIndex in s.stalls && s.stalls[s.periodIndex] > s.g.periodNano)
  {}

  // Wait, wait again after an xrun, play a period, commit.
  method OnePeriod(s: FakeStream, turn: Turn, ghost was: seq<Injection>)
    requires s.Valid() && !s.pendingToken && !s.faultReported && !s.dropInput && |turn.period| == s.g.OutSize()
    requires forall i :: s.periodIndex <= i ==> s.FaultsAt(i) == FaultsOf(was, i)
    modifies s, s.input, s.out, s.loopback, s.loopbackValid
    ensures s.Valid() && s.outputs == old(s.outputs) + [turn.period]
    ensures !s.pendingToken && !s.faultReported && !s.dropInput
    ensures s.dropouts == if Struck(was, old(s.periodIndex), s.g.periodNano) then Capped(old(s.dropouts) + 1)
                          else old(s.dropouts)
    ensures s.input[..] == if Struck(was, old(s.periodIndex), s.g.periodNano) then Silence(s.g.InSize())
                           else InputFor(s.g, old(s.outputs), old(s.periodIndex))
    ensures forall i :: s.periodIndex <= i ==> s.FaultsAt(i) == FaultsOf(was + turn.during, i)
  {
    MetMeans(was, s.periodIndex, s.g.periodNano);
    ThisPeriod(s, was);
    hide FakeStream.FaultsAt, FaultsOf, Struck, InputFor, Silence, RingHolds, ValidMarks, Begin, Config.InSize, Config.OutSize;
    ghost var k := s.periodIndex;
    var waited := s.Wait(true);
    InjectAll(s, turn.during, was, k + 1);
    if waited == Xrun {
      waited := s.Wait(true);
    }
    Fill(s.out, turn.period);
    var ok := s.Commit();
  }
}
