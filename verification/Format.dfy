/**
 Conversion between planar samples and interleaved little-endian device bytes.
 A finite float32 is a real; scaling by a power of two, rounding and the division
 back are exact on the values that occur for 16 and 24 bits, so they are modelled
 without error. What float32 does to its own bit pattern, and to a 32-bit integer
 it cannot hold, are functions handed in.
 */
module Format {
  import Bits

  const MAX_INT: nat := 0x7FFF_FFFF_FFFF_FFFF

  type byte = b: int | 0 <= b < 256

  type Bits32 = w: nat | w < 0x1_0000_0000

  // Zero has two signs.
  datatype Sample = NaN | PlusInf | MinusInf | MinusZero | Finite(r: real)

  datatype Format = F32LE | S32LE | S24LE3 | S16LE | Unknown(name: string)

  datatype Outcome = Ok | ErrFormat | ErrChannels | ErrBufferLength

  datatype Floats = Floats(toBits: Sample -> Bits32, fromBits: Bits32 -> Sample, fromInt32: int -> real)

  function BytesPerSample(f: Format): (n: nat)
    ensures n <= 4 && (n == 0 <==> f.Unknown?)
  {
    match f
    case F32LE => 4
    case S32LE => 4
    case S24LE3 => 3
    case S16LE => 2
    case Unknown(_) => 0
  }

  // -- Integer samples ---------------------------------------------------------------

  // math.Round: the nearest integer, halves away from zero.
  function Round(v: real): int {
    if v >= 0.0 then (v + 0.5).Floor else -((-v + 0.5).Floor)
  }

  // A sample brought into -1 to 1.
  function Clamped(x: Sample): real
    requires !x.NaN?
  {
    match x
    case PlusInf => 1.0
    case MinusInf => -1.0
    case MinusZero => 0.0
    case Finite(r) => if r > 1.0 then 1.0 else if r < -1.0 then -1.0 else r
  }

  function Bounded(v: int, min: int, max: int): (r: int)
    ensures min <= max ==> min <= r <= max
  {
    if v < min then min else if v > max then max else v
  }

  // A real in steps of the full scale.
  function Scaled(c: real, scale: int): real {
    c * scale as real
  }

  // A sample in steps, to the nearest one.
  function Steps(x: Sample, scale: int): int
    requires !x.NaN?
  {
    Round(Scaled(Clamped(x), scale))
  }

  // The integer sample of the full scale.
  function IntegerSample(x: Sample, scale: int): (v: int)
    requires scale > 0
    ensures -scale <= v < scale
  {
    if x.NaN? then 0 else Bounded(Steps(x, scale), -scale, scale - 1)
  }

  // The order of samples that are numbers.
  predicate AtMost(x: Sample, y: Sample) {
    match (x, y)
    case (NaN, _) => false
    case (_, NaN) => false
    case (MinusInf, _) => true
    case (_, PlusInf) => true
    case (PlusInf, _) => false
    case (_, MinusInf) => false
    case (_, _) => Number(x) <= Number(y)
  }

  function Number(x: Sample): real
    requires x.Finite? || x.MinusZero?
  {
    if x.MinusZero? then 0.0 else x.r
  }

  lemma RoundMonotone(a: real, b: real)
    requires a <= b
    ensures Round(a) <= Round(b)
  {}

  lemma ScaleUp(a: real, b: real, k: real)
    requires a <= b && k >= 0.0
    ensures a * k <= b * k
  {}

  // A louder sample never encodes to a smaller integer.
  lemma EncodeMonotone(x: Sample, y: Sample, scale: int)
    requires scale > 0 && AtMost(x, y)
    ensures IntegerSample(x, scale) <= IntegerSample(y, scale)
  {
    hide Steps;
    StepsMonotone(x, y, scale);
  }

  lemma StepsMonotone(x: Sample, y: Sample, scale: int)
    requires scale > 0 && AtMost(x, y)
    ensures Steps(x, scale) <= Steps(y, scale)
  {
    hide Round, Scaled;
    assert Clamped(x) <= Clamped(y);
    ScaledMonotone(Clamped(x), Clamped(y), scale);
    RoundMonotone(Scaled(Clamped(x), scale), Scaled(Clamped(y), scale));
  }

  lemma ScaledMonotone(a: real, b: real, scale: int)
    requires a <= b && scale > 0
    ensures Scaled(a, scale) <= Scaled(b, scale)
  {
    ScaleUp(a, b, scale as real);
  }

  // The value an integer sample stands for.
  function Value(v: int, scale: int): real
    requires scale > 0
  {
    v as real / scale as real
  }

  lemma RoundNear(v: real)
    ensures -0.5 <= Round(v) as real - v <= 0.5
  {}

  lemma RoundWhole(v: int)
    ensures Round(v as real) == v
  {}

  // Encoding moves a clamped sample by at most half a step, except at full scale,
  // where it moves it by one.
  lemma WithinOneStep(x: Sample, scale: int)
    requires scale > 0 && !x.NaN?
    ensures var e := Value(IntegerSample(x, scale), scale) - Clamped(x);
            && -1.0 / scale as real <= e <= 1.0 / scale as real
            && (Scaled(Clamped(x), scale) <= (scale - 1) as real ==>
                  -0.5 / scale as real <= e <= 0.5 / scale as real)
  {
    hide Clamped, Round, Scaled;
    var s, c, v := scale as real, Clamped(x), IntegerSample(x, scale);
    ClampedBetween(x);
    InSteps(c, scale);
    var p := Scaled(c, scale);
    Apart(v as real, c, p, scale);
    Quotients(-1.0, v as real - p, s);
    Quotients(v as real - p, 1.0, s);
    Quotients(v as real - p, 0.5, s);
    if p <= (scale - 1) as real {
      Quotients(-0.5, v as real - p, s);
    }
  }

  lemma ClampedBetween(x: Sample)
    requires !x.NaN?
    ensures -1.0 <= Clamped(x) <= 1.0
  {}

  // In integer steps.
  lemma InSteps(c: real, scale: int)
    requires scale > 0 && -1.0 <= c <= 1.0
    ensures var (p, v) := (Scaled(c, scale), Bounded(Round(Scaled(c, scale)), -scale, scale - 1));
            && -1.0 <= v as real - p <= 0.5
            && (p <= (scale - 1) as real ==> -0.5 <= v as real - p)
  {
    var s := scale as real;
    ScaleUp(-1.0, c, s);
    ScaleUp(c, 1.0, s);
    Rounded(c * s, scale);
  }

  lemma Rounded(p: real, scale: int)
    requires scale > 0 && -1.0 * scale as real <= p <= 1.0 * scale as real
    ensures var v := Bounded(Round(p), -scale, scale - 1);
            -1.0 <= v as real - p <= 0.5 && (p <= (scale - 1) as real ==> -0.5 <= v as real - p)
  {
    RoundNear(p);
    RoundMonotone((-scale) as real, p);
    RoundMonotone(p, scale as real);
    RoundWhole(-scale);
    RoundWhole(scale);
    if p <= (scale - 1) as real {
      RoundMonotone(p, (scale - 1) as real);
      RoundWhole(scale - 1);
    }
  }

  lemma Apart(v: real, c: real, p: real, scale: int)
    requires scale > 0 && p == Scaled(c, scale)
    ensures v / scale as real - c == (v - p) / scale as real
  {
    var s := scale as real;
    var a, b := v / s, (v - p) / s;
    assert a * s == v && b * s == v - p;
    assert (a - c - b) * s == 0.0;
  }

  lemma Quotients(d: real, e: real, s: real)
    requires s > 0.0 && d <= e
    ensures d / s <= e / s
  {
    var p, q := d / s, e / s;
    assert p * s == d && q * s == e;
    if p > q {
      Grows(q, p, s);
    }
  }

  lemma Grows(a: real, b: real, k: real)
    requires a < b && k > 0.0
    ensures a * k < b * k
  {}

  lemma ScaledValue(v: int, scale: int)
    requires scale > 0 && -scale <= v < scale
    ensures -1.0 <= Value(v, scale) <= 1.0 && Scaled(Value(v, scale), scale) == v as real
  {
    var s := scale as real;
    Quotients((-scale) as real, v as real, s);
    Quotients(v as real, s, s);
  }

  // Encoding what an integer sample stands for gives it back.
  lemma ValueRoundTrip(v: int, scale: int)
    requires scale > 0 && -scale <= v < scale
    ensures IntegerSample(Finite(Value(v, scale)), scale) == v
  {
    ScaledValue(v, scale);
    hide Value, Scaled, Round;
    RoundWhole(v);
  }

  // -- Bytes -------------------------------------------------------------------------------

  function Pow256(n: nat): nat {
    if n == 0 then 1 else 256 * Pow256(n - 1)
  }

  // The n low bytes of a word, the lowest first.
  function Little(w: nat, n: nat): (b: seq<byte>)
    ensures |b| == n
  {
    if n == 0 then [] else [w % 256] + Little(w / 256, n - 1)
  }

  function Word(b: seq<byte>): nat {
    if b == [] then 0 else b[0] + 256 * Word(b[1..])
  }

  lemma {:induction false} WordOfLittle(w: nat, n: nat)
    requires w < Pow256(n)
    ensures Word(Little(w, n)) == w
  {
    if n > 0 {
      WordOfLittle(w / 256, n - 1);
      assert Little(w, n)[1..] == Little(w / 256, n - 1);
    }
  }

  lemma {:induction false} LittleOfWord(b: seq<byte>)
    ensures Word(b) < Pow256(|b|) && Little(Word(b), |b|) == b
  {
    if b != [] {
      LittleOfWord(b[1..]);
      assert Word(b) % 256 == b[0] && Word(b) / 256 == Word(b[1..]);
      assert b == [b[0]] + b[1..];
    }
  }

  // The full scale of an integer format.
  function ScaleOf(f: Format): (s: int)
    requires f == S16LE || f == S24LE3 || f == S32LE
    ensures s > 0 && 2 * s == Pow256(BytesPerSample(f))
  {
    assert Pow256(0) == 1 && Pow256(1) == 256 && Pow256(2) == 65536 && Pow256(3) == 0x100_0000 && Pow256(4) == 0x1_0000_0000;
    match f
    case S16LE => 0x8000
    case S24LE3 => 0x80_0000
    case _ => 0x8000_0000
  }

  // Two's complement, out and in.
  function Unsigned(v: int, scale: int): (w: nat)
    requires -scale <= v < scale
    ensures w < 2 * scale
  {
    if v < 0 then v + 2 * scale else v
  }

  function Signed(w: nat, scale: int): (v: int)
    requires w < 2 * scale
    ensures -scale <= v < scale
  {
    if w >= scale then w - 2 * scale else w
  }

  // One sample in device bytes.
  function EncodeSample(fl: Floats, f: Format, x: Sample): (b: seq<byte>)
    requires !f.Unknown?
    ensures |b| == BytesPerSample(f)
  {
    if f == F32LE then Little(fl.toBits(if x.NaN? then Finite(0.0) else x), 4)
    else Little(Unsigned(IntegerSample(x, ScaleOf(f)), ScaleOf(f)), BytesPerSample(f))
  }

  // The integer that the bytes of an integer format hold.
  function SignedWord(f: Format, b: seq<byte>): (v: int)
    requires (f == S16LE || f == S24LE3 || f == S32LE) && |b| == BytesPerSample(f)
    ensures -ScaleOf(f) <= v < ScaleOf(f)
  {
    LittleOfWord(b);
    Signed(Word(b), ScaleOf(f))
  }

  function DecodeSample(fl: Floats, f: Format, b: seq<byte>): Sample
    requires !f.Unknown? && |b| == BytesPerSample(f)
  {
    match f
    case F32LE => LittleOfWord(b); BitsFit(b); fl.fromBits(Word(b))
    case S32LE => Finite(fl.fromInt32(SignedWord(f, b)) / ScaleOf(f) as real)
    case S24LE3 => Finite(Value(SignedWord(f, b), ScaleOf(f)))
    case S16LE => Finite(Value(SignedWord(f, b), ScaleOf(f)))
  }

  lemma BitsFit(b: seq<byte>)
    requires |b| == 4
    ensures Word(b) < 0x1_0000_0000
  {
    LittleOfWord(b);
    assert Pow256(0) == 1 && Pow256(1) == 256 && Pow256(2) == 65536 && Pow256(3) == 0x100_0000;
  }

  // For 16 and 24 bits, decoding and encoding again reproduces every byte.
  lemma SampleRoundTrip(fl: Floats, f: Format, b: seq<byte>)
    requires (f == S16LE || f == S24LE3) && |b| == BytesPerSample(f)
    ensures EncodeSample(fl, f, DecodeSample(fl, f, b)) == b
  {
    hide IntegerSample, Value;
    LittleOfWord(b);
    ValueRoundTrip(SignedWord(f, b), ScaleOf(f));
  }

  // The 32-bit words that are not numbers: all exponent bits and some bit below.
  predicate NaNBits(w: nat) {
    w / 0x80_0000 % 256 == 255 && w % 0x80_0000 != 0
  }

  // What reinterpreting the bits of a float32 is: every word but a NaN comes back.
  ghost predicate Reinterprets(fl: Floats) {
    && (forall w: Bits32 :: fl.fromBits(w).NaN? <==> NaNBits(w))
    && (forall w: Bits32 :: !fl.fromBits(w).NaN? ==> fl.toBits(fl.fromBits(w)) == w)
    && fl.toBits(Finite(0.0)) == 0
  }

  // The float format reproduces the bytes of a sample if and only if they are not a
  // NaN, which is silenced.
  lemma FloatRoundTrip(fl: Floats, b: seq<byte>)
    requires Reinterprets(fl) && |b| == 4
    ensures var again := EncodeSample(fl, F32LE, DecodeSample(fl, F32LE, b));
            && (again == b <==> !NaNBits(Word(b)))
            && (NaNBits(Word(b)) ==> again == [0, 0, 0, 0])
  {
    hide Little, Word, NaNBits;
    LittleOfWord(b);
    BitsFit(b);
    FourBytes(0);
    WordOfLittle(0, 4);
    ZeroIsNumber();
  }

  lemma ZeroIsNumber()
    ensures !NaNBits(0)
  {}

  // The 32-bit integer format does if and only if float32 holds the integer, or it is
  // the greatest one and rounds up to full scale.
  lemma WideRoundTrip(fl: Floats, b: seq<byte>)
    requires |b| == 4
    requires var r := fl.fromInt32(SignedWord(S32LE, b));
             -2147483648.0 <= r <= 2147483648.0 && r == r.Floor as real
    ensures var v := SignedWord(S32LE, b);
            EncodeSample(fl, S32LE, DecodeSample(fl, S32LE, b)) == b <==>
              fl.fromInt32(v) == v as real || (v == 0x7FFF_FFFF && fl.fromInt32(v) == 2147483648.0)
  {
    hide IntegerSample, Little, Word;
    LittleOfWord(b);
    var v := SignedWord(S32LE, b);
    var r := fl.fromInt32(v).Floor;
    var u := IntegerSample(Finite(Value(r, 0x8000_0000)), 0x8000_0000);
    WholeSample(r, 0x8000_0000);
    WordOfLittle(Unsigned(u, 0x8000_0000), 4);
  }

  // A whole number of steps up to full scale.
  lemma WholeSample(v: int, scale: int)
    requires scale > 0 && -scale <= v <= scale
    ensures IntegerSample(Finite(Value(v, scale)), scale) == if v == scale then scale - 1 else v
  {
    hide Scaled, Value, Round;
    if v < scale {
      ValueRoundTrip(v, scale);
    } else {
      FullScale(scale);
      RoundWhole(scale);
    }
  }

  lemma FullScale(scale: int)
    requires scale > 0
    ensures Value(scale, scale) == 1.0 && Scaled(1.0, scale) == scale as real
  {}

  // The device bytes, lowest first, of each format.
  lemma StoredBytes(fl: Floats, f: Format, x: Sample)
    requires !f.Unknown?
    ensures var b := EncodeSample(fl, f, x);
            match f
            case F32LE =>
              var w := fl.toBits(if x.NaN? then Finite(0.0) else x);
              b == [w % 256, w / 0x100 % 256, w / 0x1_0000 % 256, w / 0x100_0000 % 256]
            case S16LE =>
              var w := IntegerSample(x, 0x8000) % 0x1_0000;
              b == [w % 256, w / 0x100]
            case S24LE3 =>
              var w := IntegerSample(x, 0x80_0000) % 0x100_0000;
              b == [w % 256, w / 0x100 % 256, w / 0x1_0000]
            case S32LE =>
              var w := IntegerSample(x, 0x8000_0000) % 0x1_0000_0000;
              b == [w % 256, w / 0x100 % 256, w / 0x1_0000 % 256, w / 0x100_0000]
            case Unknown(_) => true
  {
    hide IntegerSample, Little, Unsigned;
    match f
    case F32LE => FourBytes(fl.toBits(if x.NaN? then Finite(0.0) else x));
    case S16LE => Stored16(IntegerSample(x, 0x8000));
    case S24LE3 => Stored24(IntegerSample(x, 0x80_0000));
    case S32LE => Stored32(IntegerSample(x, 0x8000_0000));
  }

  lemma Stored16(v: int)
    requires -0x8000 <= v < 0x8000
    ensures var w := v % 0x1_0000;
            Little(Unsigned(v, 0x8000), 2) == [w % 256, w / 0x100]
  {
    hide Unsigned;
    UnsignedIsMod(v, 0x8000);
    TwoBytes(v % 0x1_0000);
  }

  lemma Stored24(v: int)
    requires -0x80_0000 <= v < 0x80_0000
    ensures var w := v % 0x100_0000;
            Little(Unsigned(v, 0x80_0000), 3) == [w % 256, w / 0x100 % 256, w / 0x1_0000]
  {
    hide Unsigned;
    UnsignedIsMod(v, 0x80_0000);
    ThreeBytes(v % 0x100_0000);
  }

  lemma Stored32(v: int)
    requires -0x8000_0000 <= v < 0x8000_0000
    ensures var w := v % 0x1_0000_0000;
            Little(Unsigned(v, 0x8000_0000), 4) == [w % 256, w / 0x100 % 256, w / 0x1_0000 % 256, w / 0x100_0000]
  {
    hide Unsigned;
    UnsignedIsMod(v, 0x8000_0000);
    FourBytes(v % 0x1_0000_0000);
  }

  lemma UnsignedIsMod(v: int, scale: int)
    requires -scale <= v < scale
    ensures Unsigned(v, scale) == v % (2 * scale)
  {
    if v < 0 {
      Bits.DivModUnique(v, 2 * scale, -1, v + 2 * scale);
    } else {
      Bits.DivModUnique(v, 2 * scale, 0, v);
    }
  }

  // And what they stand for: two's complement in steps of the full scale.
  lemma LoadedBytes(fl: Floats, f: Format, b: seq<byte>)
    requires !f.Unknown? && |b| == BytesPerSample(f)
    ensures var x := DecodeSample(fl, f, b);
            match f
            case F32LE => x == fl.fromBits(0x100_0000 * (b[3] as int) + 0x1_0000 * (b[2] as int) + 0x100 * (b[1] as int) + b[0])
            case S16LE =>
              var w := 0x100 * (b[1] as int) + b[0];
              x == Finite((if b[1] >= 128 then w - 0x1_0000 else w) as real / 32768.0)
            case S24LE3 =>
              var w := 0x1_0000 * (b[2] as int) + 0x100 * (b[1] as int) + b[0];
              x == Finite((if b[2] >= 128 then w - 0x100_0000 else w) as real / 8388608.0)
            case S32LE =>
              var w := 0x100_0000 * (b[3] as int) + 0x1_0000 * (b[2] as int) + 0x100 * (b[1] as int) + b[0];
              x == Finite(fl.fromInt32(if b[3] >= 128 then w - 0x1_0000_0000 else w) / 2147483648.0)
            case Unknown(_) => true
  {
    hide Word, Pow256;
    WordBytes(b);
  }

  // And encoding, as integers, and decoding moves a sample that is a number by at
  // most a step.
  lemma StepAway(fl: Floats, f: Format, x: Sample)
    requires (f == S16LE || f == S24LE3) && !x.NaN?
    ensures var d := DecodeSample(fl, f, EncodeSample(fl, f, x));
            && d.Finite?
            && -1.0 / ScaleOf(f) as real <= d.r - Clamped(x) <= 1.0 / ScaleOf(f) as real
  {
    hide IntegerSample, Value, Clamped;
    var v := IntegerSample(x, ScaleOf(f));
    WordOfLittle(Unsigned(v, ScaleOf(f)), BytesPerSample(f));
    WithinOneStep(x, ScaleOf(f));
  }

  lemma BytesMonotone(fl: Floats, f: Format, x: Sample, y: Sample)
    requires (f == S16LE || f == S24LE3 || f == S32LE) && AtMost(x, y)
    ensures SignedWord(f, EncodeSample(fl, f, x)) <= SignedWord(f, EncodeSample(fl, f, y))
  {
    hide IntegerSample;
    WordOfLittle(Unsigned(IntegerSample(x, ScaleOf(f)), ScaleOf(f)), BytesPerSample(f));
    WordOfLittle(Unsigned(IntegerSample(y, ScaleOf(f)), ScaleOf(f)), BytesPerSample(f));
    EncodeMonotone(x, y, ScaleOf(f));
  }

  // -- Interleaving ------------------------------------------------------------------------

  type Planar = seq<seq<Sample>>

  // Channels of one length.
  ghost predicate Even(p: Planar) {
    |p| > 0 && forall ch :: 0 <= ch < |p| ==> |p[ch]| == |p[0]|
  }

  // How many values there are.
  function Count(channels: nat, frames: nat): nat {
    channels * frames
  }

  // The interleaved place of a channel of a frame.
  function Index(frame: nat, ch: nat, channels: nat): nat {
    frame * channels + ch
  }

  // Places and pairs of frame and channel correspond one to one.
  lemma PlaceOf(frame: nat, ch: nat, channels: nat, frames: nat)
    requires frame < frames && ch < channels
    ensures var v := Index(frame, ch, channels);
            v < Count(channels, frames) && v / channels == frame && v % channels == ch
  {
    Bits.MulMonotone(frame + 1, frames, channels);
    Bits.DivModUnique(frame * channels + ch, channels, frame, ch);
  }

  lemma PairOf(v: nat, channels: nat, frames: nat)
    requires v < Count(channels, frames)
    ensures channels > 0 && v / channels < frames && v == Index(v / channels, v % channels, channels)
  {
    var f := v / channels;
    assert v == channels * f + v % channels;
    if f >= frames { Bits.MulMonotone(frames, f, channels); }
  }

  // Value v of the interleaved order: channel v mod C of frame v div C.
  function ValueAt(p: Planar, v: nat): Sample
    requires Even(p) && v < Count(|p|, |p[0]|)
  {
    PairOf(v, |p|, |p[0]|);
    p[v % |p|][v / |p|]
  }

  // The first n values in device bytes.
  function Encoded(fl: Floats, f: Format, p: Planar, n: nat): (b: seq<byte>)
    requires !f.Unknown? && Even(p) && n <= Count(|p|, |p[0]|)
  {
    if n == 0 then [] else Encoded(fl, f, p, n - 1) + EncodeSample(fl, f, ValueAt(p, n - 1))
  }

  // Where value v begins in the device bytes.
  function Offset(f: Format, v: nat): nat {
    v * BytesPerSample(f)
  }

  lemma OffsetNext(f: Format, v: nat)
    ensures Offset(f, 0) == 0 && Offset(f, v + 1) == Offset(f, v) + BytesPerSample(f)
  {}

  lemma OffsetWithin(f: Format, v: nat, n: nat)
    requires v < n
    ensures Offset(f, v) + BytesPerSample(f) <= Offset(f, n)
  {
    Bits.MulMonotone(v + 1, n, BytesPerSample(f));
  }

  // The bytes of value v.
  function Piece(f: Format, b: seq<byte>, v: nat): (s: seq<byte>)
    requires Offset(f, v) + BytesPerSample(f) <= |b|
    ensures |s| == BytesPerSample(f)
  {
    b[Offset(f, v)..Offset(f, v) + BytesPerSample(f)]
  }

  lemma {:induction false} EncodedAt(fl: Floats, f: Format, p: Planar, n: nat, v: nat)
    requires !f.Unknown? && Even(p) && n <= Count(|p|, |p[0]|) && v < n
    ensures |Encoded(fl, f, p, n)| == Offset(f, n) && Offset(f, v) + BytesPerSample(f) <= Offset(f, n)
    ensures Piece(f, Encoded(fl, f, p, n), v) == EncodeSample(fl, f, ValueAt(p, v))
  {
    hide EncodeSample, ValueAt, Offset, Even, Count;
    OffsetWithin(f, v, n);
    OffsetNext(f, n - 1);
    EncodedLength(fl, f, p, n - 1);
    var before, last := Encoded(fl, f, p, n - 1), EncodeSample(fl, f, ValueAt(p, n - 1));
    assert Encoded(fl, f, p, n) == before + last && |before| == Offset(f, n - 1);
    if v < n - 1 {
      OffsetWithin(f, v, n - 1);
      EncodedAt(fl, f, p, n - 1, v);
      assert Piece(f, before + last, v) == Piece(f, before, v);
    } else {
      assert Piece(f, before + last, v) == last;
    }
  }

  lemma {:induction false} EncodedLength(fl: Floats, f: Format, p: Planar, n: nat)
    requires !f.Unknown? && Even(p) && n <= Count(|p|, |p[0]|)
    ensures |Encoded(fl, f, p, n)| == Offset(f, n)
  {
    hide Offset, Even, Count;
    OffsetNext(f, n);
    if n > 0 {
      OffsetNext(f, n - 1);
      EncodedLength(fl, f, p, n - 1);
    }
  }

  // The sample of every frame and channel lies at its interleaved slot, and nothing
  // else is in the bytes.
  lemma SlotOfSample(fl: Floats, f: Format, p: Planar, frame: nat, ch: nat)
    requires !f.Unknown? && Even(p) && frame < |p[0]| && ch < |p|
    ensures var (b, v) := (Encoded(fl, f, p, Count(|p|, |p[0]|)), Index(frame, ch, |p|));
            && |b| == Offset(f, Count(|p|, |p[0]|))
            && Offset(f, v) + BytesPerSample(f) <= |b|
            && Piece(f, b, v) == EncodeSample(fl, f, p[ch][frame])
  {
    PlaceOf(frame, ch, |p|, |p[0]|);
    hide Offset, Encoded, Index, Count, EncodeSample, Piece;
    EncodedAt(fl, f, p, Count(|p|, |p[0]|), Index(frame, ch, |p|));
  }

  // What decoding makes of device bytes.
  function Decoded(fl: Floats, f: Format, b: seq<byte>, channels: nat, frames: nat): (p: Planar)
    requires !f.Unknown? && channels > 0 && |b| == Offset(f, Count(channels, frames))
    ensures |p| == channels && forall ch :: 0 <= ch < channels ==> |p[ch]| == frames
  {
    seq(channels, ch requires 0 <= ch < channels =>
      seq(frames, frame requires 0 <= frame < frames =>
        PlaceOf(frame, ch, channels, frames);
        OffsetWithin(f, Index(frame, ch, channels), Count(channels, frames));
        DecodeSample(fl, f, Piece(f, b, Index(frame, ch, channels)))))
  }

  lemma DecodedValue(fl: Floats, f: Format, b: seq<byte>, channels: nat, frames: nat, v: nat)
    requires !f.Unknown? && channels > 0 && |b| == Offset(f, Count(channels, frames)) && v < Count(channels, frames)
    ensures Offset(f, v) + BytesPerSample(f) <= |b|
    ensures ValueAt(Decoded(fl, f, b, channels, frames), v) == DecodeSample(fl, f, Piece(f, b, v))
  {
    hide Offset, DecodeSample, Count, Index, Piece;
    PairOf(v, channels, frames);
    OffsetWithin(f, v, Count(channels, frames));
  }

  // The formats that lose nothing of a sample that is a number.
  predicate Exact(f: Format) {
    f == S16LE || f == S24LE3 || f == F32LE
  }

  // The bytes of a float that is not a number.
  predicate Silenced(f: Format, b: seq<byte>) {
    f == F32LE && NaNBits(Word(b))
  }

  // The first n values hold no NaN.
  ghost predicate AllNumbers(f: Format, b: seq<byte>, n: nat) {
    forall v: nat :: v < n && Offset(f, v) + BytesPerSample(f) <= |b| ==> !Silenced(f, Piece(f, b, v))
  }

  // Any number of channels: decoding to planar samples and encoding again reproduces
  // the device bytes, of floats if and only if none of them is a NaN.
  lemma BytesRoundTrip(fl: Floats, f: Format, b: seq<byte>, channels: nat, frames: nat)
    requires Exact(f) && channels > 0 && |b| == Offset(f, Count(channels, frames)) && Reinterprets(fl)
    ensures Encoded(fl, f, Decoded(fl, f, b, channels, frames), Count(channels, frames)) == b
            <==> AllNumbers(f, b, Count(channels, frames))
  {
    hide Offset, Decoded, Count, Encoded, AllNumbers;
    PrefixRoundTrip(fl, f, b, channels, frames, Count(channels, frames));
    assert b[..|b|] == b;
  }

  lemma {:induction false} PrefixRoundTrip(fl: Floats, f: Format, b: seq<byte>, channels: nat, frames: nat, n: nat)
    requires Exact(f) && channels > 0 && |b| == Offset(f, Count(channels, frames)) && Reinterprets(fl)
    requires n <= Count(channels, frames)
    ensures Offset(f, n) <= |b|
    ensures Encoded(fl, f, Decoded(fl, f, b, channels, frames), n) == b[..Offset(f, n)] <==> AllNumbers(f, b, n)
  {
    hide Offset, Decoded, EncodeSample, DecodeSample, ValueAt, Count, AllNumbers, Reinterprets;
    if n < Count(channels, frames) { OffsetWithin(f, n, Count(channels, frames)); }
    OffsetNext(f, 0);
    if n == 0 {
      NoNumbers(f, b);
    } else {
      var v := n - 1;
      PrefixRoundTrip(fl, f, b, channels, frames, v);
      OffsetWithin(f, v, Count(channels, frames));
      OffsetNext(f, v);
      DecodedValue(fl, f, b, channels, frames, v);
      PieceRoundTrip(fl, f, b, v);
      assert b[..Offset(f, n)] == b[..Offset(f, v)] + Piece(f, b, v);
      EncodedLength(fl, f, Decoded(fl, f, b, channels, frames), v);
    }
  }

  lemma NoNumbers(f: Format, b: seq<byte>)
    ensures AllNumbers(f, b, 0)
  {}

  lemma PieceRoundTrip(fl: Floats, f: Format, b: seq<byte>, v: nat)
    requires Exact(f) && Reinterprets(fl) && Offset(f, v) + BytesPerSample(f) <= |b|
    ensures AllNumbers(f, b, v + 1) <==>
              AllNumbers(f, b, v) && EncodeSample(fl, f, DecodeSample(fl, f, Piece(f, b, v))) == Piece(f, b, v)
  {
    hide EncodeSample, DecodeSample, Word, NaNBits, Offset, Reinterprets, Piece;
    if f == F32LE {
      FloatRoundTrip(fl, Piece(f, b, v));
    } else {
      SampleRoundTrip(fl, f, Piece(f, b, v));
    }
  }

  // -- The code ------------------------------------------------------------------------------

  ghost function Contents(planar: seq<array<Sample>>): (p: Planar)
    reads planar
    ensures |p| == |planar| && forall ch :: 0 <= ch < |p| ==> p[ch] == planar[ch][..]
  {
    seq(|planar|, ch requires 0 <= ch < |planar| reads planar => planar[ch][..])
  }

  // The channels are of one length, and the device bytes of the length they need.
  ghost predicate Matching(planar: seq<array<Sample>>, bytes: nat, f: Format) {
    && |planar| > 0 && (forall ch :: 0 <= ch < |planar| ==> planar[ch].Length == planar[0].Length)
    && bytes == Offset(f, Count(|planar|, planar[0].Length)) <= MAX_INT
  }

  ghost function Check(planar: seq<array<Sample>>, bytes: nat, f: Format): Outcome {
    if f.Unknown? then ErrFormat
    else if planar == [] then ErrChannels
    else if Matching(planar, bytes, f) then Ok else ErrBufferLength
  }

  // The checks both directions make.
  method Checked(planar: seq<array<Sample>>, bytes: nat, f: Format) returns (r: Outcome)
    ensures r == Check(planar, bytes, f)
  {
    var bps := BytesPerSample(f);
    if bps == 0 {
      return ErrFormat;
    }
    if |planar| == 0 {
      return ErrChannels;
    }
    var frames := planar[0].Length;
    for ch := 1 to |planar|
      invariant forall c :: 0 <= c < ch ==> planar[c].Length == frames
    {
      if planar[ch].Length != frames {
        return ErrBufferLength;
      }
    }
    Fits(frames, |planar|);
    if frames > MAX_INT / |planar| {
      Larger(frames, |planar|, bps);
      return ErrBufferLength;
    }
    var values := frames * |planar|;
    Fits(values, bps);
    if values > MAX_INT / bps || bytes != values * bps {
      return ErrBufferLength;
    }
    return Ok;
  }

  lemma Fits(a: nat, b: nat)
    requires b > 0
    ensures a > MAX_INT / b <==> a * b > MAX_INT
  {
    var q := MAX_INT / b;
    if a > q { Bits.MulMonotone(q + 1, a, b); } else { Bits.MulMonotone(a, q, b); }
  }

  lemma Larger(frames: nat, channels: nat, bps: nat)
    requires frames * channels > MAX_INT && bps > 0
    ensures channels * frames * bps > MAX_INT
  {
    Bits.MulMonotone(1, bps, channels * frames);
  }

  // The low bytes of a word from off on, each cut from its shifted value.
  method Store2(dst: array<byte>, off: nat, v: nat)
    requires off + 2 <= dst.Length
    modifies dst
    ensures dst[..off + 2] == old(dst[..off]) + Little(v, 2)
  {
    dst[off], dst[off + 1] := v % 256, v / 256 % 256;
    TwoBytes(v);
  }

  method Store3(dst: array<byte>, off: nat, v: nat)
    requires off + 3 <= dst.Length
    modifies dst
    ensures dst[..off + 3] == old(dst[..off]) + Little(v, 3)
  {
    dst[off], dst[off + 1], dst[off + 2] := v % 256, v / 256 % 256, v / 65536 % 256;
    ThreeBytes(v);
  }

  method Store4(dst: array<byte>, off: nat, v: nat)
    requires off + 4 <= dst.Length
    modifies dst
    ensures dst[..off + 4] == old(dst[..off]) + Little(v, 4)
  {
    dst[off], dst[off + 1], dst[off + 2], dst[off + 3] := v % 256, v / 256 % 256, v / 65536 % 256, v / 0x100_0000 % 256;
    FourBytes(v);
  }

  // One sample into the bytes from off on.
  method StoreSample(fl: Floats, dst: array<byte>, off: nat, x: Sample, f: Format)
    requires !f.Unknown? && off + BytesPerSample(f) <= dst.Length
    modifies dst
    ensures dst[..off + BytesPerSample(f)] == old(dst[..off]) + EncodeSample(fl, f, x)
  {
    hide Little, IntegerSample;
    match f
    case F32LE =>
      Store4(dst, off, fl.toBits(if x.NaN? then Finite(0.0) else x));
    case S16LE =>
      Store2(dst, off, Unsigned(IntegerSample(x, 0x8000), 0x8000));
    case S24LE3 =>
      var v := IntegerSample(x, 0x80_0000);
      LowBytes(v);
      Store3(dst, off, Unsigned(v, 0x8000_0000));
    case S32LE =>
      Store4(dst, off, Unsigned(IntegerSample(x, 0x8000_0000), 0x8000_0000));
  }

  lemma TwoBytes(v: nat)
    ensures Little(v, 2) == [v % 256, v / 256 % 256]
  {
    assert Little(v, 2) == [v % 256] + ([v / 256 % 256] + Little(v / 256 / 256, 0));
  }

  lemma ThreeBytes(v: nat)
    ensures Little(v, 3) == [v % 256, v / 256 % 256, v / 65536 % 256]
  {
    TwoBytes(v / 256);
    assert v / 256 / 256 == v / 65536;
  }

  lemma FourBytes(v: nat)
    ensures Little(v, 4) == [v % 256, v / 256 % 256, v / 65536 % 256, v / 0x100_0000 % 256]
  {
    ThreeBytes(v / 256);
    assert v / 256 / 256 == v / 65536 && v / 256 / 65536 == v / 0x100_0000;
  }

  // The three low bytes of a 32-bit word are those of the 24-bit one.
  lemma LowBytes(v: int)
    requires -0x80_0000 <= v < 0x80_0000
    ensures Little(Unsigned(v, 0x8000_0000), 3) == Little(Unsigned(v, 0x80_0000), 3)
  {
    var u, w := Unsigned(v, 0x80_0000), Unsigned(v, 0x8000_0000);
    ThreeBytes(u);
    ThreeBytes(w);
    hide Little;
    if v < 0 {
      HighPart(u);
    }
  }

  lemma HighPart(u: nat)
    ensures (u + 0xFF00_0000) % 256 == u % 256
    ensures (u + 0xFF00_0000) / 256 % 256 == u / 256 % 256
    ensures (u + 0xFF00_0000) / 65536 % 256 == u / 65536 % 256
  {
    assert (u + 0xFF00_0000) / 256 == u / 256 + 0xFF_0000;
    assert (u + 0xFF00_0000) / 65536 == u / 65536 + 0xFF00;
  }

  // Planar channels into device bytes, which must have exactly the room.
  method EncodeInterleaved(fl: Floats, dst: array<byte>, planar: seq<array<Sample>>, f: Format) returns (r: Outcome)
    modifies dst
    ensures r == Check(planar, dst.Length, f)
    ensures r != Ok ==> dst[..] == old(dst[..])
    ensures r == Ok ==>
              var p := Contents(planar);
              Even(p) && dst[..] == Encoded(fl, f, p, Count(|p|, |p[0]|))
  {
    r := Checked(planar, dst.Length, f);
    if r != Ok {
      return;
    }
    hide Offset, Count, Index, Encoded;
    var channels, frames := |planar|, planar[0].Length;
    ghost var p := Contents(planar);
    OffsetNext(f, 0);
    Places(0, channels, frames);
    for frame := 0 to frames
      invariant Begun(fl, f, p, dst, Index(frame, 0, channels))
    {
      EncodeFrame(fl, dst, planar, f, frame);
      Places(frame, channels, frames);
    }
    assert dst[..dst.Length] == dst[..];
  }

  // The first n values are in place.
  ghost predicate Begun(fl: Floats, f: Format, p: Planar, dst: array<byte>, n: nat)
    requires !f.Unknown? && Even(p)
    reads dst
  {
    && n <= Count(|p|, |p[0]|) && Offset(f, n) <= dst.Length
    && dst[..Offset(f, n)] == Encoded(fl, f, p, n)
  }

  method EncodeFrame(fl: Floats, dst: array<byte>, planar: seq<array<Sample>>, f: Format, frame: nat)
    requires !f.Unknown? && Matching(planar, dst.Length, f) && frame < planar[0].Length
    requires Even(Contents(planar)) && Begun(fl, f, Contents(planar), dst, Index(frame, 0, |planar|))
    modifies dst
    ensures Begun(fl, f, Contents(planar), dst, Index(frame, |planar|, |planar|))
  {
    hide Offset, Count, Index, EncodeSample, ValueAt, Encoded;
    ghost var p := Contents(planar);
    for ch := 0 to |planar|
      invariant Begun(fl, f, p, dst, Index(frame, ch, |planar|))
    {
      NextPlace(frame, ch, |planar|, planar[0].Length);
      ValueIs(p, frame, ch);
      var v := Index(frame, ch, |planar|);
      OffsetNext(f, v);
      OffsetWithin(f, v, Count(|planar|, planar[0].Length));
      EncodedNext(fl, f, p, v);
      StoreSample(fl, dst, Offset(f, v), planar[ch][frame], f);
    }
  }

  lemma EncodedNext(fl: Floats, f: Format, p: Planar, n: nat)
    requires !f.Unknown? && Even(p) && n < Count(|p|, |p[0]|)
    ensures Encoded(fl, f, p, 0) == []
    ensures Encoded(fl, f, p, n + 1) == Encoded(fl, f, p, n) + EncodeSample(fl, f, ValueAt(p, n))
  {}

  // The place after the last channel of a frame is the first of the next frame.
  lemma Places(frame: nat, channels: nat, frames: nat)
    ensures Index(0, 0, channels) == 0 && Index(frames, 0, channels) == Count(channels, frames)
    ensures Index(frame, channels, channels) == Index(frame + 1, 0, channels)
  {}

  lemma NextPlace(frame: nat, ch: nat, channels: nat, frames: nat)
    requires frame < frames && ch < channels
    ensures Index(frame, ch, channels) < Count(channels, frames)
    ensures Index(frame, ch + 1, channels) == Index(frame, ch, channels) + 1
  {
    PlaceOf(frame, ch, channels, frames);
  }

  lemma ValueIs(p: Planar, frame: nat, ch: nat)
    requires Even(p) && ch < |p| && frame < |p[0]|
    ensures Index(frame, ch, |p|) < Count(|p|, |p[0]|)
    ensures ValueAt(p, Index(frame, ch, |p|)) == p[ch][frame]
  {
    PlaceOf(frame, ch, |p|, |p[0]|);
  }

  // Bytes shifted to their places, the lowest first.
  function Joined(b0: int, b1: int, b2: int, b3: int): int {
    b0 + b1 * 0x100 + b2 * 0x1_0000 + b3 * 0x100_0000
  }

  // A word read as a two's complement number of 16 or 32 bits.
  function Narrow(v: int, scale: int): int {
    if v >= scale then v - 2 * scale else v
  }

  method Load16(src: array<byte>, off: nat) returns (v: int)
    requires off + 2 <= src.Length
    ensures Word(src[off..off + 2]) < 0x1_0000 && v == Signed(Word(src[off..off + 2]), 0x8000)
  {
    WordBytes(src[off..off + 2]);
    hide Word, Joined;
    v := Narrow(Joined(src[off], src[off + 1], 0, 0), 0x8000);
  }

  // 24 bits are sign-extended to 32.
  method Load24(src: array<byte>, off: nat) returns (v: int)
    requires off + 3 <= src.Length
    ensures Word(src[off..off + 3]) < 0x100_0000 && v == Signed(Word(src[off..off + 3]), 0x80_0000)
  {
    WordBytes(src[off..off + 3]);
    hide Word, Joined;
    var w := Joined(src[off], src[off + 1], src[off + 2], 0);
    if w >= 0x80_0000 {
      w := w + 0xFF00_0000;
    }
    v := Narrow(w, 0x8000_0000);
  }

  method Load32(src: array<byte>, off: nat) returns (w: nat)
    requires off + 4 <= src.Length
    ensures w == Word(src[off..off + 4]) < 0x1_0000_0000
  {
    WordBytes(src[off..off + 4]);
    hide Word, Joined;
    w := Joined(src[off], src[off + 1], src[off + 2], src[off + 3]);
  }

  // One sample out of the bytes from off on.
  method LoadSample(fl: Floats, src: array<byte>, off: nat, f: Format) returns (x: Sample)
    requires !f.Unknown? && off + BytesPerSample(f) <= src.Length
    ensures x == DecodeSample(fl, f, src[off..off + BytesPerSample(f)])
  {
    hide Word, Pow256;
    match f
    case F32LE =>
      var w := Load32(src, off);
      return fl.fromBits(w);
    case S16LE =>
      var v := Load16(src, off);
      return Finite(v as real / 0x8000 as real);
    case S24LE3 =>
      var v := Load24(src, off);
      return Finite(v as real / 0x80_0000 as real);
    case S32LE =>
      var w := Load32(src, off);
      return Finite(fl.fromInt32(Narrow(w, 0x8000_0000)) / 0x8000_0000 as real);
  }

  lemma WordBytes(b: seq<byte>)
    requires 2 <= |b| <= 4
    ensures Word(b) == Joined(b[0], b[1], if |b| > 2 then b[2] else 0, if |b| > 3 then b[3] else 0)
    ensures Word(b) < (if |b| == 2 then 0x1_0000 else if |b| == 3 then 0x100_0000 else 0x1_0000_0000)
  {
    LittleOfWord(b);
    assert Pow256(0) == 1 && Pow256(1) == 256 && Pow256(2) == 65536 && Pow256(3) == 0x100_0000;
    assert Word(b[1..][1..]) == if |b| == 2 then 0 else b[2] + 256 * Word(b[1..][1..][1..]);
    if |b| == 4 {
      assert Word(b[1..][1..][1..]) == b[3] + 256 * Word(b[1..][1..][1..][1..]);
    }
  }

  // Frames below frame, and of it channels below ch, are decoded; the rest is as it
  // was.
  ghost predicate Filled(planar: seq<array<Sample>>, done: Planar, was: Planar, frame: nat, ch: nat)
    requires |done| == |was| == |planar|
    requires forall c :: 0 <= c < |planar| ==> |done[c]| == |was[c]| == planar[c].Length
    reads planar
  {
    forall c, n :: 0 <= c < |planar| && 0 <= n < planar[c].Length ==>
      planar[c][n] == if n < frame || (n == frame && c < ch) then done[c][n] else was[c][n]
  }

  // Device bytes into planar channels of their own memory.
  method DecodeInterleaved(fl: Floats, planar: seq<array<Sample>>, src: array<byte>, f: Format) returns (r: Outcome)
    requires forall i, j :: 0 <= i < j < |planar| ==> planar[i] != planar[j]
    modifies planar
    ensures r == Check(planar, src.Length, f)
    ensures r != Ok ==> Contents(planar) == old(Contents(planar))
    ensures r == Ok ==> |planar| > 0 && src.Length == Offset(f, Count(|planar|, planar[0].Length))
                        && Contents(planar) == Decoded(fl, f, src[..], |planar|, planar[0].Length)
  {
    r := Checked(planar, src.Length, f);
    if r != Ok {
      return;
    }
    hide Offset, Count, Index, Decoded;
    var frames := planar[0].Length;
    ghost var was, done := Contents(planar), Decoded(fl, f, src[..], |planar|, frames);
    for frame := 0 to frames
      invariant Filled(planar, done, was, frame, 0)
    {
      DecodeFrame(fl, planar, src, f, frame, done, was);
    }
    assert forall ch :: 0 <= ch < |planar| ==> planar[ch][..] == done[ch];
  }

  method DecodeFrame(
    fl: Floats, planar: seq<array<Sample>>, src: array<byte>, f: Format, frame: nat, ghost done: Planar, ghost was: Planar)
    requires forall i, j :: 0 <= i < j < |planar| ==> planar[i] != planar[j]
    requires !f.Unknown? && Matching(planar, src.Length, f) && frame < planar[0].Length
    requires done == Decoded(fl, f, src[..], |planar|, planar[0].Length)
    requires |was| == |planar| && forall c :: 0 <= c < |was| ==> |was[c]| == planar[c].Length
    requires Filled(planar, done, was, frame, 0)
    modifies planar
    ensures Filled(planar, done, was, frame + 1, 0)
  {
    hide Offset, Count, Index, Decoded, DecodeSample;
    for ch := 0 to |planar|
      invariant Filled(planar, done, was, frame, ch)
    {
      DecodedAt(fl, f, src[..], |planar|, planar[0].Length, frame, ch);
      var off := Offset(f, Index(frame, ch, |planar|));
      var x := LoadSample(fl, src, off, f);
      assert src[off..off + BytesPerSample(f)] == src[..][off..off + BytesPerSample(f)];
      planar[ch][frame] := x;
    }
  }

  lemma DecodedAt(fl: Floats, f: Format, b: seq<byte>, channels: nat, frames: nat, frame: nat, ch: nat)
    requires !f.Unknown? && |b| == Offset(f, Count(channels, frames)) && frame < frames && ch < channels
    ensures var v := Index(frame, ch, channels);
            && Offset(f, v) + BytesPerSample(f) <= |b|
            && Decoded(fl, f, b, channels, frames)[ch][frame] == DecodeSample(fl, f, Piece(f, b, v))
  {
    PlaceOf(frame, ch, channels, frames);
    OffsetWithin(f, Index(frame, ch, channels), Count(channels, frames));
    hide Offset, Count, Index, DecodeSample, Piece;
  }
}
