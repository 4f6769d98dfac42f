/**
 The portable frame ring: fixed-size frames copied byte by byte, and two
 counters of 64 bits that wrap. One producer and one consumer take atomic steps
 in any order.
 */
module FrameRing {
  import opened Bits
  import opened Rings

  type Byte = b: int | 0 <= b < 0x100
  type Frame = seq<Byte>

  const WORD: nat := 0x1_0000_0000_0000_0000

  // slots == 2^order frames of size bytes.
  datatype Geometry = Geometry(slots: nat, size: nat, order: nat) {
    predicate Valid() {
      slots == Pow2(order) && size > 0 && order < 64
    }
  }

  // The producer holds a frame, then head, then tail; copied bytes of the frame
  // are in its slot. The consumer holds tail, then head, then the bytes copied.
  datatype Producer = Away | HasFrame(src: Frame) | HasHead(src: Frame, h: nat)
                    | Copying(src: Frame, h: nat, copied: nat)
  datatype Consumer = Gone | HasTail(t: nat) | Filling(t: nat, dst: Frame)

  datatype State = State(
    head: nat, tail: nat, data: seq<Byte>, producer: Producer, consumer: Consumer,
    // History: frames accepted by Write and frames returned by Read.
    written: seq<Frame>, read: seq<Frame>)

  datatype Step =
    | CallWrite(src: Frame) | LoadOwnHead | LoadTail | CopyByteIn | StoreHead
    | CallRead | LoadHead | CopyByteOut | StoreTail

  function Initial(g: Geometry): State {
    State(0, 0, seq(g.slots * g.size, _ => 0), Away, Gone, [], [])
  }

  // uint64 arithmetic.
  function Minus(a: nat, b: nat): nat { (a - b) % WORD }

  function Next(a: nat): nat { (a + 1) % WORD }

  // The slot of a counter, by mask.
  function Slot(g: Geometry, counter: nat): nat
    requires g.slots > 0
  {
    And(counter, g.slots - 1)
  }

  predicate Enabled(g: Geometry, s: State, e: Step) {
    match e
    case CallWrite(src) => s.producer == Away && |src| == g.size
    case LoadOwnHead => s.producer.HasFrame?
    case LoadTail => s.producer.HasHead?
    case CopyByteIn =>
      && s.producer.Copying? && s.producer.copied < |s.producer.src|
      && g.slots > 0 && Slot(g, s.producer.h) * g.size + s.producer.copied < |s.data|
    case StoreHead => s.producer.Copying? && s.producer.copied == |s.producer.src|
    case CallRead => s.consumer == Gone
    case LoadHead => s.consumer.HasTail?
    case CopyByteOut =>
      && s.consumer.Filling? && |s.consumer.dst| < g.size
      && g.slots > 0 && Slot(g, s.consumer.t) * g.size + |s.consumer.dst| < |s.data|
    case StoreTail => s.consumer.Filling? && |s.consumer.dst| == g.size
  }

  function Apply(g: Geometry, s: State, e: Step): State
    requires g.Valid() && Enabled(g, s, e)
  {
    match e
    case CallWrite(src) => s.(producer := HasFrame(src))
    case LoadOwnHead => s.(producer := HasHead(s.producer.src, s.head))
    case LoadTail =>
      var HasHead(src, h) := s.producer;
      s.(producer := if Minus(h, s.tail) >= g.slots then Away else Copying(src, h, 0))
    case CopyByteIn =>
      var Copying(src, h, k) := s.producer;
      s.(producer := Copying(src, h, k + 1), data := s.data[Slot(g, h) * g.size + k := src[k]])
    case StoreHead =>
      s.(producer := Away, head := Next(s.producer.h), written := s.written + [s.producer.src])
    case CallRead => s.(consumer := HasTail(s.tail))
    case LoadHead =>
      var t := s.consumer.t;
      s.(consumer := if t == s.head then Gone else Filling(t, []))
    case CopyByteOut =>
      var Filling(t, dst) := s.consumer;
      s.(consumer := Filling(t, dst + [s.data[Slot(g, t) * g.size + |dst|]]))
    case StoreTail =>
      s.(consumer := Gone, tail := Next(s.consumer.t), read := s.read + [s.consumer.dst])
  }

  function Run(g: Geometry, s: State, steps: seq<Step>): State
    requires g.Valid()
    decreases |steps|
  {
    if steps == [] then s
    else if Enabled(g, s, steps[0]) then Run(g, Apply(g, s, steps[0]), steps[1..])
    else Run(g, s, steps[1..])
  }

  lemma RunStep(g: Geometry, s: State, e: Step, rest: seq<Step>)
    requires g.Valid()
    ensures Run(g, s, [e] + rest) == Run(g, if Enabled(g, s, e) then Apply(g, s, e) else s, rest)
  {
    assert ([e] + rest)[1..] == rest;
  }

  // -- Counters and slots --------------------------------------------------------------

  // Wrapping at 2^64 does not disturb the slot, because the number of slots is a
  // power of two.
  lemma SlotOfPosition(g: Geometry, p: nat)
    requires g.Valid()
    ensures Slot(g, p % WORD) == p % g.slots
  {
    MaskIsMod(p % WORD, g.order);
    Pow2Add(64 - g.order, g.order);
    assert Pow2(64) == WORD by { Pow2Of64(); }
    var m := Pow2(64 - g.order);
    ModMod(p, m, g.slots);
  }

  lemma Pow2Of64()
    ensures Pow2(64) == WORD
  {
    Pow2Add(8, 8);
    assert Pow2(8) == 256;
    Pow2Add(16, 16);
    Pow2Add(32, 32);
  }

  lemma ModMod(p: nat, m: nat, n: nat)
    requires m > 0 && n > 0
    ensures m * n > 0 && (p % (m * n)) % n == p % n
  {
    MulGrows(m, n);
    var q, r := p / (m * n), p % (m * n);
    var q', r' := r / n, r % n;
    assert p == (m * n) * q + r && r == n * q' + r';
    assert p == n * (m * q + q') + r' by {
      assert (m * n) * q == n * (m * q);
      assert n * (m * q + q') == n * (m * q) + n * q';
    }
    DivModUnique(p, n, m * q + q', r');
  }

  lemma MinusWords(a: nat, b: nat)
    requires b <= a < b + WORD
    ensures Minus(a % WORD, b % WORD) == a - b
  {}

  lemma NextWord(a: nat)
    ensures Next(a % WORD) == (a + 1) % WORD
  {}

  function At(g: Geometry, data: seq<Byte>, slot: nat, n: nat): (f: Frame)
    requires slot * g.size + n <= |data|
    ensures |f| == n
  {
    data[slot * g.size..slot * g.size + n]
  }

  lemma SlotFits(g: Geometry, slot: nat)
    requires slot < g.slots
    ensures slot * g.size + g.size <= g.slots * g.size
  {
    assert (g.slots - slot - 1) * g.size >= 0;
    assert g.slots * g.size == slot * g.size + g.size + (g.slots - slot - 1) * g.size;
  }

  lemma SlotsApart(g: Geometry, i: nat, j: nat)
    requires i < j
    ensures i * g.size + g.size <= j * g.size
  {
    MulMonotone(i + 1, j, g.size);
    assert (i + 1) * g.size == i * g.size + g.size;
  }

  // A byte written to one slot leaves the others as they were.
  lemma OtherSlot(g: Geometry, data: seq<Byte>, i: nat, j: nat, k: nat, x: Byte)
    requires |data| == g.slots * g.size && i < g.slots && j < g.slots && i != j && k < g.size
    ensures j * g.size + k < |data| && i * g.size + g.size <= |data|
    ensures At(g, data[j * g.size + k := x], i, g.size) == At(g, data, i, g.size)
  {
    SlotFits(g, i);
    SlotFits(g, j);
    if i < j { SlotsApart(g, i, j); } else { SlotsApart(g, j, i); }
  }

  lemma OwnSlot(g: Geometry, data: seq<Byte>, j: nat, k: nat, x: Byte)
    requires |data| == g.slots * g.size && j < g.slots && k < g.size
    ensures j * g.size + k < |data|
    ensures At(g, data[j * g.size + k := x], j, k + 1) == At(g, data, j, k) + [x]
  {
    SlotFits(g, j);
  }

  // -- The invariant ---------------------------------------------------------------------

  ghost predicate Stored(g: Geometry, s: State)
    requires g.Valid()
  {
    && |s.data| == g.slots * g.size
    && (forall p :: 0 <= p < |s.written| ==> |s.written[p]| == g.size)
    && forall p :: |s.read| <= p < |s.written| ==> InSlot(g, s.data, p, s.written[p])
  }

  // The frame is in the slot of position p.
  ghost predicate InSlot(g: Geometry, data: seq<Byte>, p: nat, frame: Frame)
    requires g.Valid() && |data| == g.slots * g.size
  {
    SlotFits(g, p % g.slots);
    At(g, data, p % g.slots, g.size) == frame
  }

  ghost predicate Counters(g: Geometry, s: State) {
    && s.head == |s.written| % WORD && s.tail == |s.read| % WORD
    && |s.read| <= |s.written| <= |s.read| + g.slots
    && s.read == s.written[..|s.read|]
  }

  ghost predicate ProducerOk(g: Geometry, s: State)
    requires g.Valid() && |s.data| == g.slots * g.size
  {
    match s.producer
    case Away => true
    case HasFrame(src) => |src| == g.size
    case HasHead(src, h) => |src| == g.size && h == s.head
    case Copying(src, h, k) =>
      && |src| == g.size && h == s.head && k <= |src| && |s.written| < |s.read| + g.slots
      && (SlotFits(g, |s.written| % g.slots);
          At(g, s.data, |s.written| % g.slots, k) == src[..k])
  }

  ghost predicate ConsumerOk(g: Geometry, s: State)
    requires g.Valid()
  {
    match s.consumer
    case Gone => true
    case HasTail(t) => t == s.tail
    case Filling(t, dst) =>
      && t == s.tail && |s.read| < |s.written| && |dst| <= g.size
      && dst <= s.written[|s.read|]
  }

  ghost predicate Inv(g: Geometry, s: State)
    requires g.Valid()
  {
    Stored(g, s) && Counters(g, s) && ProducerOk(g, s) && ConsumerOk(g, s)
  }

  lemma SlotInRange(g: Geometry, p: nat)
    requires g.Valid()
    ensures p % g.slots < g.slots
  {}

  lemma CopyInKept(g: Geometry, s: State)
    requires g.Valid() && Inv(g, s) && Enabled(g, s, CopyByteIn)
    ensures Inv(g, Apply(g, s, CopyByteIn))
  {
    hide Slot, At;
    var Copying(src, h, k) := s.producer;
    var s' := Apply(g, s, CopyByteIn);
    var own := |s.written| % g.slots;
    SlotOfPosition(g, |s.written|);
    SlotInRange(g, |s.written|);
    OwnSlot(g, s.data, own, k, src[k]);
    assert src[..k] + [src[k]] == src[..k + 1];
    forall p | |s.read| <= p < |s.written| ensures InSlot(g, s'.data, p, s.written[p]) {
      assert InSlot(g, s.data, p, s.written[p]);
      SlotsDiffer(p, |s.written|, g.slots);
      SlotInRange(g, p);
      OtherSlot(g, s.data, p % g.slots, own, k, src[k]);
    }
  }

  lemma StoreHeadKept(g: Geometry, s: State)
    requires g.Valid() && Inv(g, s) && Enabled(g, s, StoreHead)
    ensures Inv(g, Apply(g, s, StoreHead))
  {
    hide Slot;
    var s' := Apply(g, s, StoreHead);
    NextWord(|s.written|);
    var src := s.producer.src;
    assert src[..g.size] == src;
    forall p | |s.read| <= p < |s'.written| ensures InSlot(g, s.data, p, s'.written[p]) {
      if p < |s.written| { assert InSlot(g, s.data, p, s.written[p]); }
    }
  }

  lemma CopyOutKept(g: Geometry, s: State)
    requires g.Valid() && Inv(g, s) && Enabled(g, s, CopyByteOut)
    ensures Inv(g, Apply(g, s, CopyByteOut))
  {
    hide Slot;
    var Filling(t, dst) := s.consumer;
    var p := |s.read|;
    SlotOfPosition(g, p);
    assert InSlot(g, s.data, p, s.written[p]);
    SlotFits(g, p % g.slots);
    var x := s.data[(p % g.slots) * g.size + |dst|];
    assert x == At(g, s.data, p % g.slots, g.size)[|dst|];
    assert dst + [x] == s.written[p][..|dst| + 1];
  }

  lemma LoadTailKept(g: Geometry, s: State)
    requires g.Valid() && Inv(g, s) && Enabled(g, s, LoadTail)
    ensures Inv(g, Apply(g, s, LoadTail))
  {
    hide Slot, InSlot;
    Pow2Monotone(g.order, 63);
    Pow2Of64();
    MinusWords(|s.written|, |s.read|);
    SlotInRange(g, |s.written|);
    NothingCopied(g, s.data, |s.written| % g.slots, s.producer.src);
    hide Minus, At;
  }

  lemma StoreTailKept(g: Geometry, s: State)
    requires g.Valid() && Inv(g, s) && Enabled(g, s, StoreTail)
    ensures Inv(g, Apply(g, s, StoreTail))
  {
    hide Slot, InSlot, At;
    NextWord(|s.read|);
    assert s.consumer.dst == s.written[|s.read|];
  }

  lemma OtherStepKept(g: Geometry, s: State, e: Step)
    requires g.Valid() && Inv(g, s) && Enabled(g, s, e)
    requires e.CallWrite? || e == LoadOwnHead || e == CallRead || e == LoadHead
    ensures Inv(g, Apply(g, s, e))
  {
    hide Slot, InSlot, At;
    if e == LoadHead && s.tail != s.head { assert |s.read| != |s.written|; }
  }

  lemma NothingCopied(g: Geometry, data: seq<Byte>, slot: nat, src: Frame)
    requires slot < g.slots && |data| == g.slots * g.size
    ensures slot * g.size <= |data| && At(g, data, slot, 0) == src[..0]
  {
    SlotFits(g, slot);
  }

  // Every interleaving of the producer's and the consumer's steps keeps the
  // invariant.
  lemma {:induction false} InvAlways(g: Geometry, s: State, steps: seq<Step>)
    requires g.Valid() && Inv(g, s)
    ensures Inv(g, Run(g, s, steps))
    decreases |steps|
  {
    hide Inv, Apply, Enabled;
    if steps != [] {
      var e := steps[0];
      if Enabled(g, s, e) {
        match e {
          case CopyByteIn => CopyInKept(g, s);
          case StoreHead => StoreHeadKept(g, s);
          case CopyByteOut => CopyOutKept(g, s);
          case LoadTail => LoadTailKept(g, s);
          case StoreTail => StoreTailKept(g, s);
          case _ => OtherStepKept(g, s, e);
        }
        InvAlways(g, Apply(g, s, e), steps[1..]);
      } else {
        InvAlways(g, s, steps[1..]);
      }
    }
  }

  lemma InvAtStart(g: Geometry)
    requires g.Valid()
    ensures Inv(g, Initial(g))
  {
    assert g.slots * g.size >= 0;
  }

  // The counters may wrap any number of times: in every reachable state the
  // frames read are a prefix of the frames written, whole and in order, and the
  // distance between the counters is the number of frames in between, from 0 to
  // the number of slots.
  lemma ReadsArePrefix(g: Geometry, steps: seq<Step>)
    requires g.Valid()
    ensures var s := Run(g, Initial(g), steps);
            && s.read <= s.written
            && Minus(s.head, s.tail) == |s.written| - |s.read| <= g.slots
            && forall i :: 0 <= i < |s.read| ==> |s.read[i]| == g.size
  {
    InvAtStart(g);
    InvAlways(g, Initial(g), steps);
    var s := Run(g, Initial(g), steps);
    Pow2Monotone(g.order, 63);
    Pow2Of64();
    MinusWords(|s.written|, |s.read|);
  }

  // The two calls refuse exactly when they must: Write when the ring is full at
  // the load of tail, Read when it is empty at the load of head.
  lemma RefusalsAreExact(g: Geometry, steps: seq<Step>)
    requires g.Valid()
    ensures var s := Run(g, Initial(g), steps);
            && (Enabled(g, s, LoadTail) ==>
                  (Apply(g, s, LoadTail).producer == Away <==> |s.written| == |s.read| + g.slots))
            && (Enabled(g, s, LoadHead) ==>
                  (Apply(g, s, LoadHead).consumer == Gone <==> |s.written| == |s.read|))
  {
    hide Slot;
    InvAtStart(g);
    InvAlways(g, Initial(g), steps);
    ReadsArePrefix(g, steps);
    var s := Run(g, Initial(g), steps);
    if s.head == s.tail {
      assert Minus(s.head, s.tail) == 0;
    }
  }

  // No byte of a slot is read while the producer is writing that slot.
  lemma NeverTorn(g: Geometry, steps: seq<Step>)
    requires g.Valid()
    ensures var s := Run(g, Initial(g), steps);
            Enabled(g, s, CopyByteIn) && Enabled(g, s, CopyByteOut) ==>
              Slot(g, s.producer.h) != Slot(g, s.consumer.t)
  {
    hide Slot;
    InvAtStart(g);
    InvAlways(g, Initial(g), steps);
    var s := Run(g, Initial(g), steps);
    if Enabled(g, s, CopyByteIn) && Enabled(g, s, CopyByteOut) {
      SlotOfPosition(g, |s.written|);
      SlotOfPosition(g, |s.read|);
      SlotsDiffer(|s.read|, |s.written|, g.slots);
    }
  }
}
