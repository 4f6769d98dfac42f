/**
 The D-Bus wire format of single values and of value lists: what a strict
 decoder accepts at a position, what an encoder appends at a position, and the
 proof that each undoes the other.

 Text is a byte string. Alignment depends on a position only modulo 8.
 */
module DbusValues {
  import opened Options
  import opened DbusNames
  import Bits

  type Int32 = i: int | -0x8000_0000 <= i < 0x8000_0000
  type Uint32 = u: int | 0 <= u < 0x1_0000_0000
  type Int64 = i: int | -0x8000_0000_0000_0000 <= i < 0x8000_0000_0000_0000
  type Uint64 = u: int | 0 <= u < 0x1_0000_0000_0000_0000

  const MAX_MESSAGE: nat := 64 * 1024

  // The dynamic types a value may have: the ones the codec supports, and Other
  // for all the rest.
  datatype Value =
    | VByte(y: Byte)
    | VInt32(i: Int32)
    | VUint32(u: Uint32)
    | VInt64(x: Int64)
    | VUint64(t: Uint64)
    | VText(s: Text)
    | VVariant(signature: Text, v: Value)
    | VOther

  datatype Order = Little | Big

  // What may stand between the length and the terminator of a string of type t.
  predicate ValidText(t: Byte, s: Text) {
    && ValidUtf8(s) && 0 !in s
    && (t == Code('g') ==> Supported(s))
    && (t == Code('o') ==> ValidPath(s))
  }

  // -- Integers -------------------------------------------------------------------

  function Put32(x: Uint32): (b: Text)
    ensures |b| == 4
  {
    [x % 0x100, x / 0x100 % 0x100, x / 0x100 / 0x100 % 0x100, x / 0x100 / 0x100 / 0x100]
  }

  function Join32(b0: Byte, b1: Byte, b2: Byte, b3: Byte): Uint32 {
    b0 as int + 0x100 * (b1 as int + 0x100 * (b2 as int + 0x100 * b3 as int))
  }

  function Get32(order: Order, b: Text): Uint32
    requires |b| == 4
  {
    if order.Little? then Join32(b[0], b[1], b[2], b[3]) else Join32(b[3], b[2], b[1], b[0])
  }

  function Put64(x: Uint64): (b: Text)
    ensures |b| == 8
  {
    Put32(x % 0x1_0000_0000) + Put32(x / 0x1_0000_0000)
  }

  function Get64(order: Order, b: Text): Uint64
    requires |b| == 8
  {
    if order.Little? then Get32(order, b[..4]) + 0x1_0000_0000 * Get32(order, b[4..])
    else Get32(order, b[4..]) + 0x1_0000_0000 * Get32(order, b[..4])
  }

  // The conversions between signed and unsigned integers of one width.
  function ToUint32(i: Int32): Uint32 { if i < 0 then i + 0x1_0000_0000 else i }

  function ToInt32(u: Uint32): Int32 { if u >= 0x8000_0000 then u - 0x1_0000_0000 else u }

  function ToUint64(i: Int64): Uint64 { if i < 0 then i + 0x1_0000_0000_0000_0000 else i }

  function ToInt64(u: Uint64): Int64 {
    if u >= 0x8000_0000_0000_0000 then u - 0x1_0000_0000_0000_0000 else u
  }

  lemma Get32Put(x: Uint32)
    ensures Get32(Little, Put32(x)) == x
  {}

  lemma Put32Get(b: Text)
    requires |b| == 4
    ensures Put32(Get32(Little, b)) == b
  {
    var z: nat := b[2] as int + 0x100 * b[3] as int;
    var y: nat := b[1] as int + 0x100 * z;
    Peel(b[2], b[3] as int);
    Peel(b[1], z);
    Peel(b[0], y);
  }

  lemma Peel(lo: Byte, rest: nat)
    ensures (lo as int + 0x100 * rest) % 0x100 == lo && (lo as int + 0x100 * rest) / 0x100 == rest
  {}

  lemma Get64Put(x: Uint64)
    ensures Get64(Little, Put64(x)) == x
  {
    assert Put64(x)[..4] == Put32(x % 0x1_0000_0000) && Put64(x)[4..] == Put32(x / 0x1_0000_0000);
    Get32Put(x % 0x1_0000_0000);
    Get32Put(x / 0x1_0000_0000);
  }

  lemma Put64Get(b: Text)
    requires |b| == 8
    ensures Put64(Get64(Little, b)) == b
  {
    hide Put32, Get32;
    Put32Get(b[..4]);
    Put32Get(b[4..]);
    Halves(Get32(Little, b[..4]), Get32(Little, b[4..]));
    assert b == b[..4] + b[4..];
  }

  lemma Halves(lo: Uint32, hi: Uint32)
    ensures (lo + 0x1_0000_0000 * hi) % 0x1_0000_0000 == lo
    ensures (lo + 0x1_0000_0000 * hi) / 0x1_0000_0000 == hi
  {}

  lemma SignConversions(i: Int32, x: Int64)
    ensures ToInt32(ToUint32(i)) == i && ToInt64(ToUint64(x)) == x
  {}

  lemma UnsignConversions(u: Uint32, x: Uint64)
    ensures ToUint32(ToInt32(u)) == u && ToUint64(ToInt64(x)) == x
  {}

  // -- Encoding ----------------------------------------------------------------------

  function Pad(pos: nat, n: nat): (k: nat)
    requires n > 0
    ensures k < n
  {
    (-(pos as int)) % n
  }

  function Zeros(n: nat): (z: Text)
    ensures |z| == n && forall i :: 0 <= i < n ==> z[i] == 0
  {
    seq(n, _ => 0)
  }

  // The length prefix of a string of type t.
  function TextPrefix(pos: nat, t: Byte, n: nat): Text
    requires n <= MAX_MESSAGE && (t == Code('g') ==> n <= 255)
  {
    if t == Code('g') then [n] else Zeros(Pad(pos, 4)) + Put32(n)
  }

  // The bytes a string of type t appends at pos.
  function TextBytes(pos: nat, t: Byte, s: Text): Text
    requires t == Code('g') ==> |s| <= 255
    requires |s| <= MAX_MESSAGE
  {
    TextPrefix(pos, t, |s|) + s + [0]
  }

  function WithinLimit(pos: nat, b: Text): Option<Text> {
    if pos + |b| <= MAX_MESSAGE then Some(b) else None
  }

  // What the encoder appends for v as a value of type t, its buffer holding pos
  // bytes; None is a rejected value.
  function EncodeValue(pos: nat, t: Byte, v: Value): Option<Text>
    decreases v
  {
    if t == Code('y') then
      if v.VByte? then WithinLimit(pos, [v.y]) else None
    else if t == Code('i') then
      if v.VInt32? then WithinLimit(pos, Zeros(Pad(pos, 4)) + Put32(ToUint32(v.i))) else None
    else if t == Code('u') then
      if v.VUint32? then WithinLimit(pos, Zeros(Pad(pos, 4)) + Put32(v.u)) else None
    else if t == Code('x') then
      if v.VInt64? then WithinLimit(pos, Zeros(Pad(pos, 8)) + Put64(ToUint64(v.x))) else None
    else if t == Code('t') then
      if v.VUint64? then WithinLimit(pos, Zeros(Pad(pos, 8)) + Put64(v.t)) else None
    else if t == Code('s') || t == Code('o') || t == Code('g') then
      if v.VText? then EncodeText(pos, t, v.s) else None
    else if t == Code('v') then
      if v.VVariant? && |v.signature| == 1 && v.signature != [Code('v')] then
        match EncodeText(pos, Code('g'), v.signature)
        case None => None
        case Some(g) =>
          match EncodeValue(pos + |g|, v.signature[0], v.v)
          case None => None
          case Some(b) => Some(g + b)
      else None
    else None
  }

  function EncodeText(pos: nat, t: Byte, s: Text): (r: Option<Text>)
  {
    if ValidText(t, s) && |s| <= MAX_MESSAGE then WithinLimit(pos, TextBytes(pos, t, s)) else None
  }

  function EncodeAll(pos: nat, sig: Text, values: seq<Value>): Option<Text>
    requires |sig| == |values|
    decreases |sig|
  {
    if sig == [] then Some([])
    else
      match EncodeValue(pos, sig[0], values[0])
      case None => None
      case Some(b) =>
        match EncodeAll(pos + |b|, sig[1..], values[1..])
        case None => None
        case Some(c) => Some(b + c)
  }

  function EncodeValues(sig: Text, values: seq<Value>): Option<Text> {
    if Supported(sig) && |sig| == |values| then EncodeAll(0, sig, values) else None
  }

  // -- Decoding ------------------------------------------------------------------------

  // A decoded value and the position after it.
  datatype Decoded<+T> = Decoded(value: T, pos: nat)

  // The position after n bytes, if there are that many.
  function Take(b: Text, pos: nat, n: nat): (r: Option<nat>)
    requires pos <= |b|
    ensures r.Some? ==> r.value == pos + n <= |b|
  {
    if n <= |b| - pos then Some(pos + n) else None
  }

  // The next multiple of n, if only zero bytes are skipped to reach it.
  function Align(b: Text, pos: nat, n: nat): (r: Option<nat>)
    requires pos <= |b| && n > 0
    ensures r.Some? ==> r.value == pos + Pad(pos, n) <= |b|
  {
    var k := Pad(pos, n);
    if k <= |b| - pos && (forall i :: pos <= i < pos + k ==> b[i] == 0) then Some(pos + k) else None
  }

  function Decode32(b: Text, pos: nat, order: Order): (r: Option<Decoded<Uint32>>)
    requires pos <= |b|
    ensures r.Some? ==> r.value.pos <= |b|
  {
    match Align(b, pos, 4)
    case None => None
    case Some(p) =>
      match Take(b, p, 4)
      case None => None
      case Some(q) => Some(Decoded(Get32(order, b[p..q]), q))
  }

  function Decode64(b: Text, pos: nat, order: Order): (r: Option<Decoded<Uint64>>)
    requires pos <= |b|
    ensures r.Some? ==> r.value.pos <= |b|
  {
    match Align(b, pos, 8)
    case None => None
    case Some(p) =>
      match Take(b, p, 8)
      case None => None
      case Some(q) => Some(Decoded(Get64(order, b[p..q]), q))
  }

  function DecodeText(b: Text, pos: nat, order: Order, t: Byte): (r: Option<Decoded<Text>>)
    requires pos <= |b|
    ensures r.Some? ==> r.value.pos <= |b|
  {
    var length: Option<Decoded<Uint32>> :=
      if t != Code('g') then Decode32(b, pos, order)
      else match Take(b, pos, 1)
           case None => None
           case Some(q) => Some(Decoded(b[pos], q));
    match length
    case None => None
    case Some(Decoded(n, p)) =>
      match Take(b, p, n + 1)
      case None => None
      case Some(q) =>
        var s := b[p..p + n];
        if b[p + n] == 0 && ValidText(t, s) then Some(Decoded(s, q)) else None
  }

  // The value of type t at pos. A variant may not hold a variant, so nesting
  // never reaches the depth limit.
  function DecodeValue(b: Text, pos: nat, order: Order, t: Byte, depth: nat): (r: Option<Decoded<Value>>)
    requires pos <= |b|
    ensures r.Some? ==> r.value.pos <= |b|
    decreases if depth > 8 then 0 else 9 - depth
  {
    if depth > 8 then None
    else if t == Code('y') then
      match Take(b, pos, 1)
      case None => None
      case Some(q) => Some(Decoded(VByte(b[pos]), q))
    else if t == Code('i') || t == Code('u') then
      match Decode32(b, pos, order)
      case None => None
      case Some(d) =>
        Some(Decoded(if t == Code('i') then VInt32(ToInt32(d.value)) else VUint32(d.value), d.pos))
    else if t == Code('x') || t == Code('t') then
      match Decode64(b, pos, order)
      case None => None
      case Some(d) =>
        Some(Decoded(if t == Code('x') then VInt64(ToInt64(d.value)) else VUint64(d.value), d.pos))
    else if t == Code('s') || t == Code('o') || t == Code('g') then
      match DecodeText(b, pos, order, t)
      case None => None
      case Some(d) => Some(Decoded(VText(d.value), d.pos))
    else if t == Code('v') then
      match DecodeValue(b, pos, order, Code('g'), depth + 1)
      case None => None
      case Some(g) =>
        if !g.value.VText? || |g.value.s| != 1 || g.value.s == [Code('v')] then None
        else
          match DecodeValue(b, g.pos, order, g.value.s[0], depth + 1)
          case None => None
          case Some(d) => Some(Decoded(VVariant(g.value.s, d.value), d.pos))
    else None
  }

  function DecodeAll(b: Text, pos: nat, order: Order, sig: Text): (r: Option<Decoded<seq<Value>>>)
    requires pos <= |b|
    ensures r.Some? ==> r.value.pos <= |b| && |r.value.value| == |sig|
    decreases |sig|
  {
    if sig == [] then Some(Decoded([], pos))
    else
      match DecodeValue(b, pos, order, sig[0], 0)
      case None => None
      case Some(d) =>
        match DecodeAll(b, d.pos, order, sig[1..])
        case None => None
        case Some(e) => Some(Decoded([d.value] + e.value, e.pos))
  }

  function DecodeValues(sig: Text, b: Text, order: Order): Option<seq<Value>> {
    if !Supported(sig) then None
    else
      match DecodeAll(b, 0, order, sig)
      case None => None
      case Some(d) => if d.pos == |b| then Some(d.value) else None
  }

  // -- Decoding an encoding ---------------------------------------------------------------

  // b holds c at pos.
  ghost predicate At(b: Text, pos: nat, c: Text) {
    pos + |c| <= |b| && b[pos..pos + |c|] == c
  }

  lemma AtSplit(b: Text, pos: nat, c: Text, d: Text)
    ensures At(b, pos, c + d) <==> At(b, pos, c) && At(b, pos + |c|, d)
  {
    if At(b, pos, c) && At(b, pos + |c|, d) {
      assert b[pos..pos + |c + d|] == b[pos..pos + |c|] + b[pos + |c|..pos + |c| + |d|];
    }
    if At(b, pos, c + d) {
      assert c == (c + d)[..|c|] && d == (c + d)[|c|..];
    }
  }

  lemma PadCongruent(pos: nat, pos0: nat)
    requires pos % 8 == pos0 % 8
    ensures Pad(pos, 4) == Pad(pos0, 4) && Pad(pos, 8) == Pad(pos0, 8)
  {
    var m := pos / 8 - pos0 / 8;
    assert pos == pos0 + 8 * m;
    PadShifted(pos, pos0, 8, m);
    PadShifted(pos, pos0, 4, 2 * m);
  }

  lemma PadShifted(pos: nat, pos0: nat, n: nat, m: int)
    requires n > 0 && pos == pos0 + n * m
    ensures Pad(pos, n) == Pad(pos0, n)
  {
    var q, r := -(pos0 as int) / n, Pad(pos0, n);
    assert -(pos0 as int) == n * q + r;
    assert n * (q - m) == n * q - n * m;
    Bits.DivModUnique(-(pos as int), n, q - m, r);
  }

  lemma Decode32At(b: Text, pos: nat, pos0: nat, x: Uint32)
    requires pos <= |b| && pos % 8 == pos0 % 8 && At(b, pos, Zeros(Pad(pos0, 4)) + Put32(x))
    ensures Decode32(b, pos, Little) == Some(Decoded(x, pos + Pad(pos0, 4) + 4))
  {
    hide Align, Pad, Zeros, Put32, Get32, Get64, Put64;
    AtSplit(b, pos, Zeros(Pad(pos0, 4)), Put32(x));
    AlignAt(b, pos, pos0, 4);
    Get32Put(x);
  }

  lemma AlignAt(b: Text, pos: nat, pos0: nat, n: nat)
    requires pos <= |b| && pos % 8 == pos0 % 8 && (n == 4 || n == 8) && At(b, pos, Zeros(Pad(pos0, n)))
    ensures Align(b, pos, n) == Some(pos + Pad(pos0, n))
  {
    PadCongruent(pos, pos0);
    var k := Pad(pos, n);
    forall i | pos <= i < pos + k ensures b[i] == 0 {
      assert b[i] == b[pos..pos + k][i - pos];
    }
  }

  lemma Decode64At(b: Text, pos: nat, pos0: nat, x: Uint64)
    requires pos <= |b| && pos % 8 == pos0 % 8 && At(b, pos, Zeros(Pad(pos0, 8)) + Put64(x))
    ensures Decode64(b, pos, Little) == Some(Decoded(x, pos + Pad(pos0, 8) + 8))
  {
    hide Align, Pad, Zeros, Put32, Get32, Get64, Put64;
    AtSplit(b, pos, Zeros(Pad(pos0, 8)), Put64(x));
    AlignAt(b, pos, pos0, 8);
    Get64Put(x);
  }

  lemma PrefixAt(b: Text, pos: nat, pos0: nat, t: Byte, n: nat)
    requires pos <= |b| && pos % 8 == pos0 % 8 && n <= MAX_MESSAGE && (t == Code('g') ==> n <= 255)
    requires At(b, pos, TextPrefix(pos0, t, n))
    ensures t == Code('g') ==> pos < |b| && b[pos] == n
    ensures t == Code('g') ==> |TextPrefix(pos0, t, n)| == 1
    ensures t != Code('g') ==>
              Decode32(b, pos, Little) == Some(Decoded(n, pos + |TextPrefix(pos0, t, n)|))
  {
    if t == Code('g') {
      assert b[pos..pos + 1][0] == b[pos];
    } else {
      Decode32At(b, pos, pos0, n);
    }
  }

  lemma DecodeTextAt(b: Text, pos: nat, pos0: nat, t: Byte, s: Text)
    requires pos <= |b| && pos % 8 == pos0 % 8
    requires t == Code('s') || t == Code('o') || t == Code('g')
    requires EncodeText(pos0, t, s).Some? && At(b, pos, EncodeText(pos0, t, s).value)
    ensures DecodeText(b, pos, Little, t) == Some(Decoded(s, pos + |EncodeText(pos0, t, s).value|))
  {
    hide ValidText, Decode32, At, TextPrefix, DecodeText;
    TextShort(t, s);
    var prefix := TextPrefix(pos0, t, |s|);
    var p := pos + |prefix|;
    AtSplit(b, pos, prefix + s, [0]);
    AtSplit(b, pos, prefix, s);
    ByteAt(b, p + |s|, 0);
    PrefixAt(b, pos, pos0, t, |s|);
    DecodeTextFrom(b, pos, t, s, p);
  }

  lemma DecodeTextFrom(b: Text, pos: nat, t: Byte, s: Text, p: nat)
    requires pos <= |b| && ValidText(t, s) && At(b, p, s) && p + |s| < |b| && b[p + |s|] == 0
    requires t == Code('g') ==> pos < |b| && b[pos] == |s| && p == pos + 1
    requires t != Code('g') ==> Decode32(b, pos, Little) == Some(Decoded(|s|, p))
    ensures DecodeText(b, pos, Little, t) == Some(Decoded(s, p + |s| + 1))
  {
    hide ValidText, Decode32;
  }

  lemma TextShort(t: Byte, s: Text)
    ensures ValidText(t, s) && t == Code('g') ==> |s| <= 255
  {
    hide ValidUtf8;
  }

  lemma ByteAt(b: Text, pos: nat, y: Byte)
    requires At(b, pos, [y])
    ensures pos < |b| && b[pos] == y
  {
    assert b[pos..pos + 1][0] == b[pos];
  }

  // A number or a byte reads back.
  lemma DecodeNumberAt(b: Text, pos: nat, pos0: nat, t: Byte, v: Value, depth: nat)
    requires pos <= |b| && pos % 8 == pos0 % 8 && depth <= 8 && !v.VText? && !v.VVariant?
    requires EncodeValue(pos0, t, v).Some? && At(b, pos, EncodeValue(pos0, t, v).value)
    ensures DecodeValue(b, pos, Little, t, depth) == Some(Decoded(v, pos + |EncodeValue(pos0, t, v).value|))
  {
    hide Decode32, Decode64, DecodeText, EncodeText, At, Zeros, Pad, Put32, Put64, ToInt32, ToInt64, ToUint32, ToUint64;
    match v
    case VByte(y) => ByteAt(b, pos, y);
    case VInt32(i) =>
      SignConversions(i, 0);
      Decode32At(b, pos, pos0, ToUint32(i));
    case VUint32(u) => Decode32At(b, pos, pos0, u);
    case VInt64(x) =>
      SignConversions(0, x);
      Decode64At(b, pos, pos0, ToUint64(x));
    case VUint64(x) => Decode64At(b, pos, pos0, x);
    case _ =>
  }

  // And so does a text.
  lemma DecodeTextValueAt(b: Text, pos: nat, pos0: nat, t: Byte, v: Value, depth: nat)
    requires pos <= |b| && pos % 8 == pos0 % 8 && depth <= 8 && v.VText?
    requires EncodeValue(pos0, t, v).Some? && At(b, pos, EncodeValue(pos0, t, v).value)
    ensures DecodeValue(b, pos, Little, t, depth) == Some(Decoded(v, pos + |EncodeValue(pos0, t, v).value|))
  {
    hide Decode32, Decode64, DecodeText, EncodeText, At;
    DecodeTextAt(b, pos, pos0, t, v.s);
  }

  // Where the encoder's bytes stand, the decoder reads the value back and stops
  // right after them, whatever follows.
  lemma {:induction false} DecodeEncoded(b: Text, pos: nat, pos0: nat, t: Byte, v: Value, depth: nat)
    requires pos <= |b| && pos % 8 == pos0 % 8 && depth <= (if t == Code('v') then 7 else 8)
    requires EncodeValue(pos0, t, v).Some? && At(b, pos, EncodeValue(pos0, t, v).value)
    ensures DecodeValue(b, pos, Little, t, depth) == Some(Decoded(v, pos + |EncodeValue(pos0, t, v).value|))
    decreases v
  {
    hide Decode32, Decode64, DecodeText, EncodeText, At, Zeros, Pad, Put32, Put64, ToInt32, ToInt64, ToUint32, ToUint64;
    if v.VText? {
      DecodeTextValueAt(b, pos, pos0, t, v, depth);
    } else if !v.VVariant? {
      DecodeNumberAt(b, pos, pos0, t, v, depth);
    } else {
      var g := EncodeText(pos0, Code('g'), v.signature).value;
      var c := EncodeValue(pos0 + |g|, v.signature[0], v.v).value;
      AtSplit(b, pos, g, c);
      AtFits(b, pos, g);
      DecodeTextAt(b, pos, pos0, Code('g'), v.signature);
      DecodeG(b, pos, depth + 1);
      DecodeEncoded(b, pos + |g|, pos0 + |g|, v.signature[0], v.v, depth + 1);
    }
  }

  lemma AtFits(b: Text, pos: nat, c: Text)
    requires At(b, pos, c)
    ensures pos + |c| <= |b|
  {}

  lemma DecodeG(b: Text, pos: nat, depth: nat)
    requires pos <= |b| && depth <= 8
    ensures DecodeValue(b, pos, Little, Code('g'), depth) ==
            match DecodeText(b, pos, Little, Code('g'))
            case None => None
            case Some(d) => Some(Decoded(VText(d.value), d.pos))
  {
    hide DecodeText;
  }

  lemma {:induction false} DecodeAllEncoded(b: Text, pos: nat, pos0: nat, sig: Text, values: seq<Value>)
    requires |sig| == |values| && pos <= |b| && pos % 8 == pos0 % 8
    requires EncodeAll(pos0, sig, values).Some? && At(b, pos, EncodeAll(pos0, sig, values).value)
    ensures DecodeAll(b, pos, Little, sig) == Some(Decoded(values, pos + |EncodeAll(pos0, sig, values).value|))
    decreases |sig|
  {
    hide EncodeValue, DecodeValue;
    if sig != [] {
      var c := EncodeValue(pos0, sig[0], values[0]).value;
      var d := EncodeAll(pos0 + |c|, sig[1..], values[1..]).value;
      AtSplit(b, pos, c, d);
      DecodeEncoded(b, pos, pos0, sig[0], values[0], 0);
      DecodeAllEncoded(b, pos + |c|, pos0 + |c|, sig[1..], values[1..]);
      assert values == [values[0]] + values[1..];
    }
  }

  // -- Encoding what was decoded --------------------------------------------------------------

  lemma Encode32Decoded(b: Text, pos: nat, pos0: nat)
    requires pos <= |b| && pos % 8 == pos0 % 8 && Decode32(b, pos, Little).Some?
    ensures var d := Decode32(b, pos, Little).value;
            pos <= d.pos && b[pos..d.pos] == Zeros(Pad(pos0, 4)) + Put32(d.value)
  {
    PadCongruent(pos, pos0);
    var p := pos + Pad(pos, 4);
    Put32Get(b[p..p + 4]);
    assert b[pos..p + 4] == b[pos..p] + b[p..p + 4];
    assert b[pos..p] == Zeros(Pad(pos, 4));
  }

  lemma Encode64Decoded(b: Text, pos: nat, pos0: nat)
    requires pos <= |b| && pos % 8 == pos0 % 8 && Decode64(b, pos, Little).Some?
    ensures var d := Decode64(b, pos, Little).value;
            pos <= d.pos && b[pos..d.pos] == Zeros(Pad(pos0, 8)) + Put64(d.value)
  {
    PadCongruent(pos, pos0);
    var p := pos + Pad(pos, 8);
    Put64Get(b[p..p + 8]);
    assert b[pos..p + 8] == b[pos..p] + b[p..p + 8];
    assert b[pos..p] == Zeros(Pad(pos, 8));
  }

  lemma EncodeTextDecoded(b: Text, pos: nat, pos0: nat, t: Byte)
    requires pos <= |b| && pos % 8 == pos0 % 8 && DecodeText(b, pos, Little, t).Some?
    requires t == Code('s') || t == Code('o') || t == Code('g')
    requires pos0 + DecodeText(b, pos, Little, t).value.pos - pos <= MAX_MESSAGE
    ensures var d := DecodeText(b, pos, Little, t).value;
            pos <= d.pos && EncodeText(pos0, t, d.value) == Some(b[pos..d.pos])
  {
    hide ValidText, Decode32;
    var d := DecodeText(b, pos, Little, t).value;
    var s := d.value;
    var p := d.pos - |s| - 1;
    assert b[p..p + |s|] == s && b[p + |s|..p + |s| + 1] == [0];
    if t == Code('g') {
      assert p == pos + 1 && b[pos..p] == [|s|];
    } else {
      Encode32Decoded(b, pos, pos0);
      assert b[pos..p] == Zeros(Pad(pos0, 4)) + Put32(|s|);
    }
    assert b[pos..d.pos] == b[pos..p] + b[p..p + |s|] + b[p + |s|..p + |s| + 1];
    assert t == Code('g') ==> |s| <= 255;
  }

  // A number or a byte that was accepted encodes to its bytes.
  lemma EncodeNumberDecoded(b: Text, pos: nat, pos0: nat, t: Byte, depth: nat)
    requires pos <= |b| && pos % 8 == pos0 % 8 && t in [Code('y'), Code('i'), Code('u'), Code('x'), Code('t')]
    requires DecodeValue(b, pos, Little, t, depth).Some?
    requires pos0 + DecodeValue(b, pos, Little, t, depth).value.pos - pos <= MAX_MESSAGE
    ensures var d := DecodeValue(b, pos, Little, t, depth).value;
            pos <= d.pos && EncodeValue(pos0, t, d.value) == Some(b[pos..d.pos])
  {
    hide Decode32, Decode64, Zeros, Pad, Put32, Put64, ToInt32, ToInt64, ToUint32, ToUint64;
    if t == Code('y') {
      assert b[pos..pos + 1] == [b[pos]];
    } else if t == Code('i') || t == Code('u') {
      Encode32Decoded(b, pos, pos0);
      UnsignConversions(Decode32(b, pos, Little).value.value, 0);
    } else {
      Encode64Decoded(b, pos, pos0);
      UnsignConversions(0, Decode64(b, pos, Little).value.value);
    }
  }

  // An accepted value encodes to exactly the bytes it was read from: padding,
  // lengths, terminators and variants have one encoding.
  lemma {:induction false} EncodeDecoded(b: Text, pos: nat, pos0: nat, t: Byte, depth: nat)
    requires pos <= |b| && pos % 8 == pos0 % 8
    requires DecodeValue(b, pos, Little, t, depth).Some?
    requires pos0 + DecodeValue(b, pos, Little, t, depth).value.pos - pos <= MAX_MESSAGE
    ensures var d := DecodeValue(b, pos, Little, t, depth).value;
            pos <= d.pos && EncodeValue(pos0, t, d.value) == Some(b[pos..d.pos])
    decreases if depth > 8 then 0 else 9 - depth
  {
    hide Decode32, Decode64, DecodeText, EncodeText, Zeros, Pad, Put32, Put64, ToInt32, ToInt64, ToUint32, ToUint64;
    if t in [Code('y'), Code('i'), Code('u'), Code('x'), Code('t')] {
      EncodeNumberDecoded(b, pos, pos0, t, depth);
    } else if t == Code('s') || t == Code('o') || t == Code('g') {
      EncodeTextDecoded(b, pos, pos0, t);
    } else if t == Code('v') {
      var g := DecodeValue(b, pos, Little, Code('g'), depth + 1).value;
      var d := DecodeValue(b, g.pos, Little, g.value.s[0], depth + 1).value;
      DecodedAfter(b, g.pos, Little, g.value.s[0], depth + 1);
      DecodeG(b, pos, depth + 1);
      EncodeTextDecoded(b, pos, pos0, Code('g'));
      var q0 := pos0 + |b[pos..g.pos]|;
      EncodeDecoded(b, g.pos, q0, g.value.s[0], depth + 1);
      assert b[pos..d.pos] == b[pos..g.pos] + b[g.pos..d.pos];
      VariantBytes(pos0, g.value.s, d.value, b[pos..g.pos], b[g.pos..d.pos]);
    }
  }

  lemma VariantBytes(pos0: nat, sig: Text, v: Value, g: Text, c: Text)
    requires |sig| == 1 && sig != [Code('v')] && EncodeText(pos0, Code('g'), sig) == Some(g)
    requires EncodeValue(pos0 + |g|, sig[0], v) == Some(c)
    ensures EncodeValue(pos0, Code('v'), VVariant(sig, v)) == Some(g + c)
  {
    hide EncodeText;
  }

  lemma {:induction false} DecodedAfter(b: Text, pos: nat, order: Order, t: Byte, depth: nat)
    requires pos <= |b| && DecodeValue(b, pos, order, t, depth).Some?
    ensures pos < DecodeValue(b, pos, order, t, depth).value.pos
    decreases if depth > 8 then 0 else 9 - depth
  {
    hide ValidText;
    if t == Code('v') && depth <= 8 {
      var g := DecodeValue(b, pos, order, Code('g'), depth + 1).value;
      DecodedAfter(b, pos, order, Code('g'), depth + 1);
      DecodedAfter(b, g.pos, order, g.value.s[0], depth + 1);
    }
  }

  lemma {:induction false} EncodeAllDecoded(b: Text, pos: nat, pos0: nat, sig: Text)
    requires pos <= |b| && pos % 8 == pos0 % 8
    requires DecodeAll(b, pos, Little, sig).Some?
    requires pos0 + DecodeAll(b, pos, Little, sig).value.pos - pos <= MAX_MESSAGE
    ensures var d := DecodeAll(b, pos, Little, sig).value;
            pos <= d.pos && EncodeAll(pos0, sig, d.value) == Some(b[pos..d.pos])
    decreases |sig|
  {
    hide EncodeValue, DecodeValue;
    if sig != [] {
      var c := DecodeValue(b, pos, Little, sig[0], 0).value;
      var e := DecodeAll(b, c.pos, Little, sig[1..]).value;
      DecodeAllAfter(b, c.pos, Little, sig[1..]);
      DecodedAfter(b, pos, Little, sig[0], 0);
      EncodeDecoded(b, pos, pos0, sig[0], 0);
      var q0 := pos0 + |b[pos..c.pos]|;
      EncodeAllDecoded(b, c.pos, q0, sig[1..]);
      var d := DecodeAll(b, pos, Little, sig).value;
      assert d.value == [c.value] + e.value && d.value[1..] == e.value;
      assert b[pos..e.pos] == b[pos..c.pos] + b[c.pos..e.pos];
    } else {
      assert b[pos..pos] == [];
    }
  }

  lemma {:induction false} DecodeAllAfter(b: Text, pos: nat, order: Order, sig: Text)
    requires pos <= |b| && DecodeAll(b, pos, order, sig).Some?
    ensures pos + |sig| <= DecodeAll(b, pos, order, sig).value.pos
    decreases |sig|
  {
    hide DecodeValue;
    if sig != [] {
      DecodedAfter(b, pos, order, sig[0], 0);
      DecodeAllAfter(b, DecodeValue(b, pos, order, sig[0], 0).value.pos, order, sig[1..]);
    }
  }

  // -- The two round trips ------------------------------------------------------------------------

  lemma ValuesRoundTrip(sig: Text, values: seq<Value>)
    requires EncodeValues(sig, values).Some?
    ensures DecodeValues(sig, EncodeValues(sig, values).value, Little) == Some(values)
  {
    hide EncodeAll, DecodeAll, Supported;
    var b := EncodeValues(sig, values).value;
    assert b[0..|b|] == b;
    DecodeAllEncoded(b, 0, 0, sig, values);
  }

  lemma BytesRoundTrip(sig: Text, b: Text)
    requires |b| <= MAX_MESSAGE && DecodeValues(sig, b, Little).Some?
    ensures EncodeValues(sig, DecodeValues(sig, b, Little).value) == Some(b)
  {
    hide EncodeAll, DecodeAll, Supported;
    EncodeAllDecoded(b, 0, 0, sig);
    assert b[0..|b|] == b;
  }
}
