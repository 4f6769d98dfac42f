/**
 The frame ring's own code: placing a ring in an arena, and Write and Read over
 one array of bytes. Each call, run alone, is a schedule of FrameRing.
 */
module FrameBuffer {
  import opened Bits
  import opened Rings
  import opened Schedules
  import opened Options
  import opened FrameRing

  // -- The schedule of one call ---------------------------------------------------

  // The steps of one Write; when the ring is full the later ones never run.
  function WriteSchedule(src: Frame): seq<Step> {
    [CallWrite(src), LoadOwnHead, LoadTail] + (Repeat(CopyByteIn, |src|) + [StoreHead])
  }

  function ReadSchedule(size: nat): seq<Step> {
    [CallRead, FrameRing.LoadHead] + (Repeat(CopyByteOut, size) + [StoreTail])
  }

  lemma {:induction false} SkipRepeat(g: Geometry, s: State, e: Step, n: nat, rest: seq<Step>)
    requires g.Valid() && !Enabled(g, s, e)
    ensures Run(g, s, Repeat(e, n) + rest) == Run(g, s, rest)
  {
    hide Run, Enabled;
    if n == 0 {
      assert Repeat(e, 0) + rest == rest;
    } else {
      assert Repeat(e, n) + rest == [e] + (Repeat(e, n - 1) + rest);
      RunStep(g, s, e, Repeat(e, n - 1) + rest);
      SkipRepeat(g, s, e, n - 1, rest);
    }
  }

  // bytes with src at offset o.
  function Patched(data: seq<Byte>, o: nat, src: Frame): (r: seq<Byte>)
    requires o + |src| <= |data|
    ensures |r| == |data|
  {
    data[..o] + src + data[o + |src|..]
  }

  lemma PatchStep(data: seq<Byte>, o: nat, src: Frame, k: nat)
    requires k < |src| && o + |src| <= |data|
    ensures Patched(data, o, src[..k])[o + k := src[k]] == Patched(data, o, src[..k + 1])
  {}

  lemma {:induction false} CopyBytesIn(g: Geometry, s: State, data0: seq<Byte>, o: nat, rest: seq<Step>)
    requires g.Valid() && s.producer.Copying? && |s.data| == |data0| == g.slots * g.size
    requires var Copying(src, h, k) := s.producer;
             && o == Slot(g, h) * g.size && o + |src| <= |data0|
             && k <= |src| && s.data == Patched(data0, o, src[..k])
    ensures var Copying(src, h, k) := s.producer;
            Run(g, s, Repeat(CopyByteIn, |src| - k) + rest) ==
            Run(g, s.(producer := Copying(src, h, |src|), data := Patched(data0, o, src)), rest)
    decreases |s.producer.src| - s.producer.copied
  {
    hide Slot, Run, Patched;
    var Copying(src, h, k) := s.producer;
    if k == |src| {
      assert src[..k] == src;
      assert Repeat(CopyByteIn, 0) + rest == rest;
    } else {
      var more := Repeat(CopyByteIn, |src| - k - 1) + rest;
      assert Repeat(CopyByteIn, |src| - k) + rest == [CopyByteIn] + more;
      RunStep(g, s, CopyByteIn, more);
      PatchStep(data0, o, src, k);
      CopyBytesIn(g, Apply(g, s, CopyByteIn), data0, o, rest);
    }
  }

  // What one Write does when nothing interferes.
  ghost function Written(g: Geometry, s: State, src: Frame): State
    requires g.Valid() && |s.data| == g.slots * g.size
  {
    SlotFits(g, |s.written| % g.slots);
    if |src| != g.size || |s.written| == |s.read| + g.slots then s
    else s.(head := Next(s.head), written := s.written + [src],
            data := Patched(s.data, (|s.written| % g.slots) * g.size, src))
  }

  lemma WriteRun(g: Geometry, s: State, src: Frame)
    requires g.Valid() && Inv(g, s) && s.producer == Away
    ensures Run(g, s, WriteSchedule(src)) == Written(g, s, src)
  {
    hide Slot, Run, Inv, Patched, Minus, Next, Repeat;
    DataSize(g, s);
    SlotFits(g, |s.written| % g.slots);
    var copies := Repeat(CopyByteIn, |src|) + [StoreHead];
    assert WriteSchedule(src) == [CallWrite(src)] + ([LoadOwnHead] + ([LoadTail] + copies));
    RunStep(g, s, CallWrite(src), [LoadOwnHead] + ([LoadTail] + copies));
    var s1 := if |src| == g.size then s.(producer := HasFrame(src)) else s;
    RunStep(g, s1, LoadOwnHead, [LoadTail] + copies);
    var s2 := if |src| == g.size then s.(producer := HasHead(src, s.head)) else s;
    RunStep(g, s2, LoadTail, copies);
    if |src| != g.size || |s.written| == |s.read| + g.slots {
      RunRest(g, s, copies, CopyByteIn, |src|, StoreHead);
    } else {
      var o := (|s.written| % g.slots) * g.size;
      var s3 := s.(producer := Copying(src, s.head, 0));
      SlotOfHead(g, s);
      PatchNothing(s.data, o, src[..0]);
      CopyBytesIn(g, s3, s.data, o, [StoreHead]);
      var s4 := s.(producer := Copying(src, s.head, |src|), data := Patched(s.data, o, src));
      RunLast(g, s4, StoreHead);
    }
  }

  lemma PatchNothing(data: seq<Byte>, o: nat, none: Frame)
    requires o <= |data| && none == []
    ensures Patched(data, o, none) == data
  {}

  lemma DataSize(g: Geometry, s: State)
    requires g.Valid() && Inv(g, s)
    ensures |s.data| == g.slots * g.size
    ensures |s.read| <= |s.written| <= |s.read| + g.slots
    ensures Minus(s.head, s.tail) == |s.written| - |s.read|
    ensures s.tail == s.head <==> |s.written| == |s.read|
  {
    hide Slot, InSlot;
    Pow2Monotone(g.order, 63);
    Pow2Of64();
    MinusWords(|s.written|, |s.read|);
    assert s.tail == s.head ==> Minus(s.head, s.tail) == 0;
  }

  lemma SlotOfHead(g: Geometry, s: State)
    requires g.Valid() && Inv(g, s)
    ensures Slot(g, s.head) == |s.written| % g.slots && Slot(g, s.tail) == |s.read| % g.slots
  {
    SlotOfPosition(g, |s.written|);
    SlotOfPosition(g, |s.read|);
  }

  lemma RunLast(g: Geometry, s: State, e: Step)
    requires g.Valid()
    ensures Run(g, s, [e]) == if Enabled(g, s, e) then Apply(g, s, e) else s
  {
    assert [e] == [e] + [];
    RunStep(g, s, e, []);
  }

  // A call that has been refused leaves nothing to do.
  lemma RunRest(g: Geometry, s: State, steps: seq<Step>, copy: Step, n: nat, last: Step)
    requires g.Valid() && steps == Repeat(copy, n) + [last] && !Enabled(g, s, copy) && !Enabled(g, s, last)
    ensures Run(g, s, steps) == s
  {
    SkipRepeat(g, s, copy, n, [last]);
    RunLast(g, s, last);
  }

  lemma {:induction false} CopyBytesOut(g: Geometry, s: State, o: nat, rest: seq<Step>)
    requires g.Valid() && s.consumer.Filling? && |s.data| == g.slots * g.size
    requires var Filling(t, dst) := s.consumer;
             o == Slot(g, t) * g.size && o + g.size <= |s.data| && dst <= s.data[o..o + g.size]
    ensures var Filling(t, dst) := s.consumer;
            Run(g, s, Repeat(CopyByteOut, g.size - |dst|) + rest) ==
            Run(g, s.(consumer := Filling(t, s.data[o..o + g.size])), rest)
    decreases g.size - |s.consumer.dst|
  {
    hide Slot, Run;
    var Filling(t, dst) := s.consumer;
    if |dst| == g.size {
      assert dst == s.data[o..o + g.size];
      assert Repeat(CopyByteOut, 0) + rest == rest;
    } else {
      var more := Repeat(CopyByteOut, g.size - |dst| - 1) + rest;
      assert Repeat(CopyByteOut, g.size - |dst|) + rest == [CopyByteOut] + more;
      RunStep(g, s, CopyByteOut, more);
      CopyBytesOut(g, Apply(g, s, CopyByteOut), o, rest);
    }
  }

  ghost function ReadOne(g: Geometry, s: State): State
    requires g.Valid() && |s.read| <= |s.written|
  {
    if |s.written| == |s.read| then s
    else s.(tail := Next(s.tail), read := s.read + [s.written[|s.read|]])
  }

  lemma ReadRun(g: Geometry, s: State)
    requires g.Valid() && Inv(g, s) && s.consumer == Gone
    ensures |s.read| <= |s.written| && Run(g, s, ReadSchedule(g.size)) == ReadOne(g, s)
  {
    hide Slot, Run, Inv, Next, Minus, Repeat;
    DataSize(g, s);
    var copies := Repeat(CopyByteOut, g.size) + [StoreTail];
    assert ReadSchedule(g.size) == [CallRead] + ([FrameRing.LoadHead] + copies);
    RunStep(g, s, CallRead, [FrameRing.LoadHead] + copies);
    RunStep(g, s.(consumer := HasTail(s.tail)), FrameRing.LoadHead, copies);
    if |s.written| == |s.read| {
      RunRest(g, s, copies, CopyByteOut, g.size, StoreTail);
    } else {
      var o := (|s.read| % g.slots) * g.size;
      SlotFits(g, |s.read| % g.slots);
      SlotOfHead(g, s);
      OldestFrame(g, s);
      ReadFrame(g, s, o);
    }
  }

  // Copying a frame out and giving its slot back.
  lemma ReadFrame(g: Geometry, s: State, o: nat)
    requires g.Valid() && |s.read| < |s.written| && |s.data| == g.slots * g.size && o == Slot(g, s.tail) * g.size
    requires o + g.size <= |s.data| && s.data[o..o + g.size] == s.written[|s.read|] && s.consumer == Gone
    ensures Run(g, s.(consumer := Filling(s.tail, [])), Repeat(CopyByteOut, g.size) + [StoreTail]) == ReadOne(g, s)
  {
    hide Slot, Run, Next, Repeat;
    CopyBytesOut(g, s.(consumer := Filling(s.tail, [])), o, [StoreTail]);
    RunLast(g, s.(consumer := Filling(s.tail, s.data[o..o + g.size])), StoreTail);
  }

  lemma OldestFrame(g: Geometry, s: State)
    requires g.Valid() && Inv(g, s) && |s.read| < |s.written|
    ensures var o := (|s.read| % g.slots) * g.size;
            o + g.size <= |s.data| && s.data[o..o + g.size] == s.written[|s.read|]
  {
    hide Slot;
    assert InSlot(g, s.data, |s.read|, s.written[|s.read|]);
    SlotFits(g, |s.read| % g.slots);
  }

  // -- The code ------------------------------------------------------------------------

  class Ring {
    const g: Geometry
    const data: array<Byte>
    var head: nat
    var tail: nat
    ghost var written: seq<Frame>
    ghost var read: seq<Frame>

    // The state of FrameRing between calls.
    ghost function Abs(): State
      reads this, data
    {
      State(head, tail, data[..], Away, Gone, written, read)
    }

    ghost predicate Valid()
      reads this, data
    {
      g.Valid() && Inv(g, Abs())
    }

    constructor (slots: nat, size: nat, order: nat)
      requires slots == Pow2(order) && order < 64 && size > 0
      ensures Valid() && fresh(data) && g == Geometry(slots, size, order) && Abs() == Initial(g)
    {
      g := Geometry(slots, size, order);
      data := new Byte[slots * size](_ => 0);
      head, tail := 0, 0;
      written, read := [], [];
      new;
      assert data[..] == Initial(g).data;
      InvAtStart(g);
    }

    // False when the ring is full or the frame has the wrong length.
    method Write(src: array<Byte>) returns (ok: bool)
      requires Valid() && src != data
      modifies this, data
      ensures Valid() && Abs() == Run(g, old(Abs()), WriteSchedule(src[..]))
      ensures ok <==> src.Length == g.size && |old(written)| < |old(read)| + g.slots
      ensures written == if ok then old(written) + [src[..]] else old(written)
    {
      hide Inv, Run, WriteSchedule, Slot, Minus;
      ghost var s := Abs();
      WriteRun(g, s, src[..]);
      DataSize(g, s);
      InvAlways(g, s, WriteSchedule(src[..]));
      if src.Length != g.size {
        return false;
      }
      var h, t := head, tail;
      if Minus(h, t) >= g.slots {
        return false;
      }
      SlotOfHead(g, s);
      SlotFits(g, Slot(g, h));
      var index := Slot(g, h);
      Copy(data, index * g.size, src, 0, g.size);
      assert data[..] == Patched(s.data, index * g.size, src[..]);
      head := Next(h);
      written := written + [src[..]];
      return true;
    }

    // False when the ring is empty or the buffer has the wrong length.
    method Read(dst: array<Byte>) returns (ok: bool)
      requires Valid() && dst != data
      modifies this, dst
      ensures Valid()
      ensures dst.Length == g.size ==> Abs() == Run(g, old(Abs()), ReadSchedule(g.size))
      ensures ok <==> dst.Length == g.size && |old(read)| < |old(written)|
      ensures ok ==> |old(read)| < |written| && dst[..] == written[|old(read)|] && read == old(read) + [dst[..]]
      ensures !ok ==> Abs() == old(Abs()) && dst[..] == old(dst[..])
    {
      hide Inv, Run, ReadSchedule, Slot;
      ghost var s := Abs();
      ReadRun(g, s);
      DataSize(g, s);
      InvAlways(g, s, ReadSchedule(g.size));
      if dst.Length != g.size {
        return false;
      }
      var t, h := tail, head;
      if t == h {
        return false;
      }
      SlotOfHead(g, s);
      OldestFrame(g, s);
      var index := Slot(g, t);
      Copy(dst, 0, data, index * g.size, g.size);
      assert dst[..] == s.written[|s.read|];
      tail := Next(t);
      read := read + [dst[..]];
      return true;
    }
  }

  // -- Placing a ring in an arena ---------------------------------------------------------

  const MAX_INT: nat := 0x7FFF_FFFF_FFFF_FFFF

  // Three counters on separate cache lines, then three words.
  const CONTROL_SIZE: nat := 152
  const CONTROL_ALIGN: nat := 8
  const DATA_ALIGN: nat := 8

  predicate ValidShape(slots: int, slotBytes: int) {
    slots > 0 && And(slots, slots - 1) == 0 && slotBytes > 0 && slotBytes <= MAX_INT / slots
  }

  // The arena bytes that always suffice for a ring.
  function StorageSize(slots: int, slotBytes: int): Option<nat> {
    if !ValidShape(slots, slotBytes) then None
    else
      var base := CONTROL_SIZE + CONTROL_ALIGN - 1 + DATA_ALIGN - 1;
      if slots * slotBytes > MAX_INT - base then None else Some(base + slots * slotBytes)
  }

  // The first multiple of a power of two at or after off: (off + mask) &^ mask.
  function AlignedOffset(off: nat, align: nat): Option<nat>
    requires align > 0
  {
    var mask := align - 1;
    if off > MAX_INT - mask then None else Some((off + mask) - (off + mask) % align)
  }

  datatype Placement = Placement(control: nat, data: nat, end: nat)

  // Where NewFrameRing puts the control block and the slots in an arena of size
  // bytes of which off are taken.
  function Place(size: nat, off: nat, slots: int, slotBytes: int): Option<Placement>
  {
    if !ValidShape(slots, slotBytes) then None
    else
      match AlignedOffset(off, CONTROL_ALIGN)
      case None => None
      case Some(control) =>
        if control > size || CONTROL_SIZE > size - control then None
        else
          match AlignedOffset(control + CONTROL_SIZE, DATA_ALIGN)
          case None => None
          case Some(data) =>
            if data > size || slots * slotBytes > size - data then None
            else Some(Placement(control, data, data + slots * slotBytes))
  }

  // The test of the shape passes exactly powers of two.
  lemma PowerOfTwoShape(n: nat)
    requires n > 0
    ensures And(n, n - 1) == 0 <==> IsPow2(n)
  {
    if And(n, n - 1) == 0 { OnlyPowers(n); }
    if IsPow2(n) {
      var k: nat :| n == Pow2(k);
      PowersPass(k);
    }
  }

  lemma {:induction false} PowersPass(k: nat)
    ensures And(Pow2(k), Pow2(k) - 1) == 0
  {
    if k > 0 {
      var p := Pow2(k - 1);
      PowersPass(k - 1);
      assert (2 * p) / 2 == p && (2 * p - 1) / 2 == p - 1;
    }
  }

  lemma {:induction false} OnlyPowers(n: nat)
    requires n > 0 && And(n, n - 1) == 0
    ensures IsPow2(n)
    decreases n
  {
    if n == 1 {
      assert n == Pow2(0);
    } else if n % 2 == 1 {
      assert And(n, n - 1) == 2 * And(n / 2, (n - 1) / 2);
      assert n / 2 == (n - 1) / 2;
      AndSelf(n / 2);
      assert false;
    } else {
      assert (n - 1) / 2 == n / 2 - 1;
      assert And(n, n - 1) == 2 * And(n / 2, n / 2 - 1);
      OnlyPowers(n / 2);
      var k: nat :| n / 2 == Pow2(k);
      assert n == Pow2(k + 1);
    }
  }

  lemma AndSelf(n: nat)
    ensures And(n, n) == n
  {}

  // A placement keeps the two regions apart, aligned and inside the arena; the
  // shape check admits only powers of two; and an unused arena of the advertised
  // size always has a place.
  lemma PlacementSafe(size: nat, off: nat, slots: int, slotBytes: int)
    ensures Place(size, off, slots, slotBytes).Some? ==>
              var p := Place(size, off, slots, slotBytes).value;
              && off <= p.control && p.control + CONTROL_SIZE <= p.data && p.end <= size
              && p.end == p.data + slots * slotBytes && p.control % 8 == 0 && p.data % 8 == 0
              && IsPow2(slots)
    ensures off == 0 && StorageSize(slots, slotBytes) == Some(size) ==>
              Place(size, off, slots, slotBytes).Some?
  {
    hide And;
    if ValidShape(slots, slotBytes) { PowerOfTwoShape(slots); }
  }

  // The first multiple of eight at or after off.
  function NextEight(off: nat): nat { (off + 7) / 8 * 8 }

  // A ring has a place exactly if its slots are a power of two of at least one byte, and
  // behind the next multiple of eight there is room for the control block and the slots;
  // it then takes exactly that room.
  lemma PlacedExactly(size: nat, off: nat, slots: int, slotBytes: int)
    requires size <= MAX_INT
    ensures Place(size, off, slots, slotBytes).Some? <==>
              slots > 0 && IsPow2(slots) && slotBytes > 0 && NextEight(off) + 152 + slots * slotBytes <= size
    ensures Place(size, off, slots, slotBytes).Some? ==>
              Place(size, off, slots, slotBytes).value ==
                Placement(NextEight(off), NextEight(off) + 152, NextEight(off) + 152 + slots * slotBytes)
  {
    hide AlignedOffset, ValidShape, NextEight, IsPow2;
    ShapeIs(slots, slotBytes);
    AlignedIs(off);
    AlignedIs(NextEight(off) + 152);
    EightAgain(off);
  }

  // What suffices for an unused arena is that and the alignment, if an int can hold it.
  lemma AdvertisedExactly(slots: int, slotBytes: int)
    ensures StorageSize(slots, slotBytes).Some? <==>
              slots > 0 && IsPow2(slots) && slotBytes > 0 && 166 + slots * slotBytes <= MAX_INT
    ensures StorageSize(slots, slotBytes).Some? ==> StorageSize(slots, slotBytes).value == 166 + slots * slotBytes
  {
    hide ValidShape, IsPow2;
    ShapeIs(slots, slotBytes);
  }

  lemma AlignedIs(off: nat)
    ensures AlignedOffset(off, 8) == if off > MAX_INT - 7 then None else Some(NextEight(off))
    ensures off <= NextEight(off) < off + 8
  {}

  lemma EightAgain(off: nat)
    ensures NextEight(NextEight(off) + 152) == NextEight(off) + 152
    ensures NextEight(off) + 152 <= MAX_INT ==> NextEight(off) + 152 <= MAX_INT - 7
  {}

  lemma ShapeIs(slots: int, slotBytes: int)
    ensures ValidShape(slots, slotBytes) <==>
              slots > 0 && IsPow2(slots) && slotBytes > 0 && slots * slotBytes <= MAX_INT
  {
    hide And, IsPow2;
    if slots > 0 {
      PowerOfTwoShape(slots);
      if slotBytes > 0 { ProductFits(slots, slotBytes, MAX_INT); }
    }
  }
}
