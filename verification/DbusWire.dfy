/**
 The bytes of single values on the D-Bus, said byte by byte: numbers, alignment, texts
 and variants as "Marshaling (Wire Format)" of the D-Bus Specification has them.
 */
module DbusWire {
  import Bits
  import opened Options
  import opened DbusNames
  import opened DbusValues

  // -- Numbers ---------------------------------------------------------------------------

  // The bytes of a word, in either order, and what they stand for.
  lemma Words32(b: Text)
    requires |b| == 4
    ensures Get32(Little, b) == b[0] as int + 0x100 * b[1] as int + 0x1_0000 * b[2] as int + 0x100_0000 * b[3] as int
    ensures Get32(Big, b) == b[3] as int + 0x100 * b[2] as int + 0x1_0000 * b[1] as int + 0x100_0000 * b[0] as int
  {}

  lemma Words64(b: Text)
    requires |b| == 8
    ensures Get64(Little, b) == Get32(Little, b[..4]) + 0x1_0000_0000 * Get32(Little, b[4..])
    ensures Get64(Big, b) == Get32(Big, b[4..]) + 0x1_0000_0000 * Get32(Big, b[..4])
  {}

  // The same number in the other order is the same bytes turned around.
  function Turned(b: Text): (r: Text)
    ensures |r| == |b|
  {
    seq(|b|, i requires 0 <= i < |b| => b[|b| - 1 - i])
  }

  lemma OtherOrder(b: Text)
    ensures |b| == 4 ==> Get32(Big, b) == Get32(Little, Turned(b))
    ensures |b| == 8 ==> Get64(Big, b) == Get64(Little, Turned(b))
  {
    if |b| == 8 {
      assert Turned(b)[..4] == Turned(b[4..]) && Turned(b)[4..] == Turned(b[..4]);
    }
  }

  // So a number that was put in turned around is read back in the other order.
  lemma BigRoundTrip(x: Uint32, y: Uint64)
    ensures Get32(Big, Turned(Put32(x))) == x && Get64(Big, Turned(Put64(y))) == y
  {
    hide Get32, Get64, Put32, Put64;
    OtherOrder(Turned(Put32(x)));
    OtherOrder(Turned(Put64(y)));
    assert Turned(Turned(Put32(x))) == Put32(x) && Turned(Turned(Put64(y))) == Put64(y);
    Get32Put(x);
    Get64Put(y);
  }

  // Signed numbers are two's complement: those below zero a whole word further on.
  lemma TwosComplement(i: Int32, x: Int64)
    ensures ToUint32(i) == i % 0x1_0000_0000 && ToUint64(x) == x % 0x1_0000_0000_0000_0000
  {}

  // -- Values ------------------------------------------------------------------------------

  // Zeros up to the next multiple of n, and no further.
  predicate Filler(z: Text, pos: nat, n: nat)
    requires n > 0
  {
    |z| < n && (pos + |z|) % n == 0 && forall i :: 0 <= i < |z| ==> z[i] == 0
  }

  lemma PadFills(pos: nat, n: nat)
    requires n > 0
    ensures Filler(Zeros(Pad(pos, n)), pos, n)
  {
    var k := Pad(pos, n);
    FillsUp(pos, n, k);
  }

  lemma FillsUp(pos: nat, n: nat, k: nat)
    requires n > 0 && k == (-(pos as int)) % n
    ensures (pos + k) % n == 0
  {
    var q := -(pos as int) / n;
    assert -(pos as int) == n * q + k;
    assert pos + k == n * -q;
    Bits.DivModUnique(pos + k, n, -q, 0);
  }

  // A value of a number type: filler, then the number in so many bytes.
  predicate Numbered(c: Text, pos: nat, n: nat, x: int)
    requires n == 4 || n == 8
  {
    && |c| >= n && Filler(c[..|c| - n], pos, n)
    && (n == 4 ==> Get32(Little, c[|c| - 4..]) == x) && (n == 8 ==> Get64(Little, c[|c| - 8..]) == x)
  }

  // A text: filler, its length, its bytes and a zero.
  predicate Texted(c: Text, pos: nat, s: Text) {
    var k := |c| - |s| - 5;
    && k >= 0 && Filler(c[..k], pos, 4) && Get32(Little, c[k..k + 4]) == |s|
    && c[k + 4..k + 4 + |s|] == s && c[|c| - 1] == 0
  }

  lemma NumberedIs(pos: nat, x: Uint32, y: Uint64)
    ensures Numbered(Zeros(Pad(pos, 4)) + Put32(x), pos, 4, x)
    ensures Numbered(Zeros(Pad(pos, 8)) + Put64(y), pos, 8, y)
  {
    PadFills(pos, 4);
    PadFills(pos, 8);
    Get32Put(x);
    Get64Put(y);
    hide Get32, Get64, Put32, Put64, Pad;
    var c, d := Zeros(Pad(pos, 4)) + Put32(x), Zeros(Pad(pos, 8)) + Put64(y);
    assert c[..|c| - 4] == Zeros(Pad(pos, 4)) && c[|c| - 4..] == Put32(x);
    assert d[..|d| - 8] == Zeros(Pad(pos, 8)) && d[|d| - 8..] == Put64(y);
  }

  lemma TextedIs(pos: nat, t: Byte, s: Text)
    requires t != 103 && |s| <= MAX_MESSAGE
    ensures Texted(TextBytes(pos, t, s), pos, s)
  {
    PadFills(pos, 4);
    Get32Put(|s|);
    hide Get32, Put32, Pad;
    var z, c := Zeros(Pad(pos, 4)), TextBytes(pos, t, s);
    assert c == z + (Put32(|s|) + (s + [0]));
    assert c[..|z|] == z && c[|z|..|z| + 4] == Put32(|s|) && c[|z| + 4..|z| + 4 + |s|] == s;
  }

  // What a value looks like as a type.
  ghost predicate Spelt(c: Text, pos: nat, t: Byte, v: Value) {
    match t
    case 121 => v.VByte? && c == [v.y]
    case 105 => v.VInt32? && Numbered(c, pos, 4, v.i % 0x1_0000_0000)
    case 117 => v.VUint32? && Numbered(c, pos, 4, v.u)
    case 120 => v.VInt64? && Numbered(c, pos, 8, v.x % 0x1_0000_0000_0000_0000)
    case 116 => v.VUint64? && Numbered(c, pos, 8, v.t)
    case 115 => v.VText? && Texted(c, pos, v.s)
    case 111 => v.VText? && Texted(c, pos, v.s) && PathRule(v.s)
    case 103 => v.VText? && c == [|v.s|] + v.s + [0]
    case 118 =>
      && v.VVariant? && |v.signature| == 1 && v.signature != [118]
      && EncodeValue(pos + 3, v.signature[0], v.v).Some?
      && c == [1, v.signature[0], 0] + EncodeValue(pos + 3, v.signature[0], v.v).value
    case _ => false
  }

  // Every encoding is of the type, and within the limit.
  lemma EncodedBytes(pos: nat, t: Byte, v: Value)
    requires EncodeValue(pos, t, v).Some?
    ensures var c := EncodeValue(pos, t, v).value; pos + |c| <= 65536 && Spelt(c, pos, t, v)
  {
    hide EncodeValue, Spelt;
    VariantInside(pos, t, v);
    match v
    case VText(_) => TextSpelt(pos, t, v);
    case VVariant(_, _) => VariantSpelt(pos, t, v);
    case _ => NumberSpelt(pos, t, v);
  }

  lemma NumberSpelt(pos: nat, t: Byte, v: Value)
    requires EncodeValue(pos, t, v).Some? && !v.VText? && !v.VVariant?
    ensures Spelt(EncodeValue(pos, t, v).value, pos, t, v)
  {
    hide Zeros, Pad, Put32, Put64, Numbered, Texted, ValidText, ToUint32, ToUint64;
    match v
    case VInt32(i) => TwosComplement(i, 0); NumberedIs(pos, ToUint32(i), 0);
    case VUint32(u) => NumberedIs(pos, u, 0);
    case VInt64(x) => TwosComplement(0, x); NumberedIs(pos, 0, ToUint64(x));
    case VUint64(x) => NumberedIs(pos, 0, x);
    case _ =>
  }

  lemma TextSpelt(pos: nat, t: Byte, v: Value)
    requires EncodeValue(pos, t, v).Some? && v.VText?
    ensures Spelt(EncodeValue(pos, t, v).value, pos, t, v)
  {
    hide Zeros, Pad, Put32, Put64, Numbered, Texted, ValidText;
    if t == 115 || t == 111 { TextedIs(pos, t, v.s); }
    TextMeans(t, v.s);
  }

  lemma VariantSpelt(pos: nat, t: Byte, v: Value)
    requires EncodeValue(pos, t, v).Some? && v.VVariant?
    ensures Spelt(EncodeValue(pos, t, v).value, pos, t, v)
  {
    hide Zeros, Pad, Put32, Put64, Numbered, Texted, ValidText, TextBytes;
    if |v.signature| == 1 { OneCode(pos, v.signature); }
  }

  lemma OneCode(pos: nat, sig: Text)
    requires |sig| == 1
    ensures TextBytes(pos, 103, sig) == [1, sig[0], 0]
  {}

  // The values that are sent as a type: those of the type whose bytes end within the
  // limit of 64 KiB.
  predicate Sends(pos: nat, t: Byte, v: Value)
    decreases v
  {
    match v
    case VByte(_) => t == 121 && pos + 1 <= 65536
    case VInt32(_) => t == 105 && pos + (-(pos as int)) % 4 + 4 <= 65536
    case VUint32(_) => t == 117 && pos + (-(pos as int)) % 4 + 4 <= 65536
    case VInt64(_) => t == 120 && pos + (-(pos as int)) % 8 + 8 <= 65536
    case VUint64(_) => t == 116 && pos + (-(pos as int)) % 8 + 8 <= 65536
    case VText(s) =>
      || ((t == 115 || t == 111) && ValidText(t, s) && pos + (-(pos as int)) % 4 + 4 + |s| + 1 <= 65536)
      || (t == 103 && ValidText(t, s) && pos + 1 + |s| + 1 <= 65536)
    case VVariant(sig, w) =>
      t == 118 && |sig| == 1 && sig != [118] && ValidText(103, sig) && pos + 3 <= 65536 && Sends(pos + 3, sig[0], w)
    case VOther => false
  }

  lemma {:induction false} EncodesExactly(pos: nat, t: Byte, v: Value)
    ensures EncodeValue(pos, t, v).Some? <==> Sends(pos, t, v)
    decreases v
  {
    hide ValidText, Put32, Put64, ToUint32, ToUint64;
    if v.VVariant? && |v.signature| == 1 { EncodesExactly(pos + 3, v.signature[0], v.v); }
    if v.VText? { ShortSignature(t, v.s); }
    if v.VVariant? { ShortSignature(103, v.signature); }
  }

  lemma ShortSignature(t: Byte, s: Text)
    ensures ValidText(t, s) && t == 103 ==> |s| <= 255
  {
    TextShort(t, s);
  }

  // What lies in a variant stays within the limit too.
  lemma VariantInside(pos: nat, t: Byte, v: Value)
    requires EncodeValue(pos, t, v).Some?
    ensures pos + |EncodeValue(pos, t, v).value| <= 65536
    decreases v
  {
    hide Zeros, Pad, Put32, Put64, ValidText, ToUint32, ToUint64, TextBytes;
    if t == 118 && v.VVariant? {
      var g := EncodeText(pos, 103, v.signature).value;
      VariantInside(pos + |g|, v.signature[0], v.v);
    }
  }

  // The texts that may be sent and are accepted: UTF-8 without a zero, and of the
  // signatures and paths only the sound ones.
  lemma TextMeans(t: Byte, s: Text)
    ensures ValidText(t, s) <==>
              && (exists runes :: s == Runes(runes)) && (forall i :: 0 <= i < |s| ==> s[i] != 0)
              && (t == 103 ==> |s| <= 255 && forall i :: 0 <= i < |s| ==>
                                 s[i] in {121, 105, 117, 120, 116, 115, 111, 103, 118})
              && (t == 111 ==> PathRule(s))
  {
    Utf8Means(s);
    SupportedMeans(s);
    PathMeans(s);
    hide ValidUtf8, ValidPath, Supported, PathRule, Runes;
  }
}
