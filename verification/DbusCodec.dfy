/**
 The codec as it runs: a decoder that moves a cursor over a buffer, an encoder
 that appends to one, and the writer and reader of whole messages, each shown to
 compute the wire format of DbusValues and DbusMessages.
 */
module DbusCodec {
  import opened Options
  import opened DbusNames
  import opened DbusValues
  import opened DbusMessages

  class Decoder {
    const b: Text
    const order: Order
    var pos: nat

    ghost predicate Valid() reads this { pos <= |b| }

    constructor (b: Text, order: Order)
      ensures Valid() && this.b == b && this.order == order && pos == 0
    {
      this.b, this.order, pos := b, order, 0;
    }

    // The next n bytes.
    method Take(n: int) returns (r: Option<Text>)
      requires Valid()
      modifies this
      ensures Valid()
      ensures r == if 0 <= n <= |b| - old(pos) then Some(b[old(pos)..old(pos) + n]) else None
      ensures pos == if r.Some? then old(pos) + n else old(pos)
    {
      if n < 0 || n > |b| - pos {
        return None;
      }
      r := Some(b[pos..pos + n]);
      pos := pos + n;
    }

    // Skip zero bytes up to a multiple of n.
    method SkipTo(n: nat) returns (ok: bool)
      requires Valid() && n > 0
      modifies this
      ensures Valid()
      ensures ok <==> Align(b, old(pos), n).Some?
      ensures ok ==> pos == Align(b, old(pos), n).value
    {
      var padding := Take(Pad(pos, n));
      if padding == None {
        return false;
      }
      for i := 0 to |padding.value|
        invariant forall k :: 0 <= k < i ==> padding.value[k] == 0
      {
        if padding.value[i] != 0 {
          assert b[old(pos) + i] != 0;
          return false;
        }
      }
      forall i | old(pos) <= i < pos ensures b[i] == 0 {
        assert padding.value[i - old(pos)] == 0;
      }
      return true;
    }

    method Take32() returns (r: Option<Uint32>)
      requires Valid()
      modifies this
      ensures Valid()
      ensures match Decode32(b, old(pos), order)
              case None => r == None
              case Some(d) => r == Some(d.value) && pos == d.pos
    {
      var ok := SkipTo(4);
      if !ok {
        return None;
      }
      var bytes := Take(4);
      if bytes == None {
        return None;
      }
      return Some(Get32(order, bytes.value));
    }

    method Take64() returns (r: Option<Uint64>)
      requires Valid()
      modifies this
      ensures Valid()
      ensures match Decode64(b, old(pos), order)
              case None => r == None
              case Some(d) => r == Some(d.value) && pos == d.pos
    {
      var ok := SkipTo(8);
      if !ok {
        return None;
      }
      var bytes := Take(8);
      if bytes == None {
        return None;
      }
      return Some(Get64(order, bytes.value));
    }

    method TakeText(t: Byte) returns (r: Option<Text>)
      requires Valid()
      modifies this
      ensures Valid()
      ensures match DecodeText(b, old(pos), order, t)
              case None => r == None
              case Some(d) => r == Some(d.value) && pos == d.pos
    {
      hide ValidText, Decode32;
      var n: nat;
      if t == Code('g') {
        var bytes := Take(1);
        if bytes == None {
          return None;
        }
        n := bytes.value[0];
      } else {
        var length := Take32();
        if length == None {
          return None;
        }
        n := length.value;
      }
      var bytes := Take(n + 1);
      if bytes == None {
        return None;
      }
      var s := bytes.value[..n];
      assert s == b[pos - n - 1..pos - 1] && bytes.value[n] == b[pos - 1];
      if bytes.value[n] != 0 || !ValidText(t, s) {
        return None;
      }
      return Some(s);
    }

    method TakeValue(t: Byte, depth: nat) returns (r: Option<Value>)
      requires Valid()
      modifies this
      ensures Valid()
      ensures match DecodeValue(b, old(pos), order, t, depth)
              case None => r == None
              case Some(d) => r == Some(d.value) && pos == d.pos
      decreases if depth > 8 then 0 else 9 - depth
    {
      hide Decode32, Decode64, DecodeText;
      if depth > 8 {
        return None;
      }
      if t == Code('y') {
        var bytes := Take(1);
        return if bytes == None then None else Some(VByte(bytes.value[0]));
      } else if t == Code('i') || t == Code('u') {
        var x := Take32();
        return if x == None then None
               else if t == Code('i') then Some(VInt32(ToInt32(x.value))) else Some(VUint32(x.value));
      } else if t == Code('x') || t == Code('t') {
        var x := Take64();
        return if x == None then None
               else if t == Code('x') then Some(VInt64(ToInt64(x.value))) else Some(VUint64(x.value));
      } else if t == Code('s') || t == Code('o') || t == Code('g') {
        var s := TakeText(t);
        return if s == None then None else Some(VText(s.value));
      } else if t == Code('v') {
        var g := TakeValue(Code('g'), depth + 1);
        if g == None || !g.value.VText? || |g.value.s| != 1 || g.value.s == [Code('v')] {
          return None;
        }
        var v := TakeValue(g.value.s[0], depth + 1);
        return if v == None then None else Some(VVariant(g.value.s, v.value));
      }
      return None;
    }
  }

  class Encoder {
    var b: Text

    constructor (b: Text)
      ensures this.b == b
    {
      this.b := b;
    }

    method AlignTo(n: nat)
      requires n > 0
      modifies this
      ensures b == old(b) + Zeros(Pad(|old(b)|, n))
    {
      b := b + Zeros(Pad(|b|, n));
    }

    method PutText(t: Byte, s: Text) returns (ok: bool)
      modifies this
      ensures ok <==> EncodeText(|old(b)|, t, s).Some?
      ensures ok ==> b == old(b) + EncodeText(|old(b)|, t, s).value
    {
      hide ValidText;
      if !ValidText(t, s) || |s| > MAX_MESSAGE {
        return false;
      }
      TextShort(t, s);
      ghost var c := TextBytes(|b|, t, s);
      if t == Code('g') {
        b := b + [|s|];
      } else {
        AlignTo(4);
        b := b + Put32(|s|);
      }
      b := b + s;
      b := b + [0];
      assert b == old(b) + c;
      return |b| <= MAX_MESSAGE;
    }

    method PutValue(t: Byte, v: Value) returns (ok: bool)
      modifies this
      ensures ok <==> EncodeValue(|old(b)|, t, v).Some?
      ensures ok ==> b == old(b) + EncodeValue(|old(b)|, t, v).value
      decreases v
    {
      hide EncodeText;
      if t == Code('y') {
        if !v.VByte? { return false; }
        b := b + [v.y];
      } else if t == Code('i') {
        if !v.VInt32? { return false; }
        AlignTo(4);
        b := b + Put32(ToUint32(v.i));
        assert b == old(b) + (Zeros(Pad(|old(b)|, 4)) + Put32(ToUint32(v.i)));
      } else if t == Code('u') {
        if !v.VUint32? { return false; }
        AlignTo(4);
        b := b + Put32(v.u);
        assert b == old(b) + (Zeros(Pad(|old(b)|, 4)) + Put32(v.u));
      } else if t == Code('x') {
        if !v.VInt64? { return false; }
        AlignTo(8);
        b := b + Put64(ToUint64(v.x));
        assert b == old(b) + (Zeros(Pad(|old(b)|, 8)) + Put64(ToUint64(v.x)));
      } else if t == Code('t') {
        if !v.VUint64? { return false; }
        AlignTo(8);
        b := b + Put64(v.t);
        assert b == old(b) + (Zeros(Pad(|old(b)|, 8)) + Put64(v.t));
      } else if t == Code('s') || t == Code('o') || t == Code('g') {
        if !v.VText? { return false; }
        ok := PutText(t, v.s);
        return ok;
      } else if t == Code('v') {
        if !v.VVariant? || |v.signature| != 1 || v.signature == [Code('v')] { return false; }
        ok := PutText(Code('g'), v.signature);
        if !ok { return false; }
        ok := PutValue(v.signature[0], v.v);
        return ok;
      } else {
        return false;
      }
      return |b| <= MAX_MESSAGE;
    }
  }

  // The encoding from value i on.
  lemma FromValue(pos: nat, sig: Text, values: seq<Value>, i: nat)
    requires i < |sig| == |values|
    ensures EncodeAll(pos, sig[i..], values[i..]) ==
            match EncodeValue(pos, sig[i], values[i])
            case None => None
            case Some(a) =>
              match EncodeAll(pos + |a|, sig[i + 1..], values[i + 1..])
              case None => None
              case Some(c) => Some(a + c)
  {
    hide EncodeValue;
    assert sig[i..][0] == sig[i] && values[i..][0] == values[i];
    assert sig[i..][1..] == sig[i + 1..] && values[i..][1..] == values[i + 1..];
  }

  method EncodeList(sig: Text, values: seq<Value>) returns (r: Option<Text>)
    ensures r == EncodeValues(sig, values)
  {
    hide EncodeValue, EncodeAll, Supported;
    if !Supported(sig) || |sig| != |values| {
      return None;
    }
    var e := new Encoder([]);
    assert sig[0..] == sig && values[0..] == values;
    assert forall c: Text :: [] + c == c;
    for i := 0 to |sig|
      invariant match EncodeAll(|e.b|, sig[i..], values[i..])
                case None => EncodeValues(sig, values) == None
                case Some(c) => EncodeValues(sig, values) == Some(e.b + c)
    {
      FromValue(|e.b|, sig, values, i);
      ghost var before := e.b;
      var ok := e.PutValue(sig[i], values[i]);
      if !ok {
        return None;
      }
      ghost var c := EncodeAll(|e.b|, sig[i + 1..], values[i + 1..]);
      assert c.Some? ==> before + (EncodeValue(|before|, sig[i], values[i]).value + c.value) == e.b + c.value;
    }
    assert sig[|sig|..] == [] && values[|sig|..] == [] && e.b + [] == e.b;
    NothingLeft(|e.b|);
    return Some(e.b);
  }

  lemma NothingLeft(pos: nat)
    ensures EncodeAll(pos, [], []) == Some([])
  {}

  method DecodeList(sig: Text, b: Text, order: Order) returns (r: Option<seq<Value>>)
    ensures r == DecodeValues(sig, b, order)
  {
    hide DecodeValue, Supported;
    if !Supported(sig) {
      return None;
    }
    var d := new Decoder(b, order);
    var v: seq<Value> := [];
    assert sig[0..] == sig;
    assert forall w: seq<Value> :: [] + w == w;
    for i := 0 to |sig|
      invariant d.Valid()
      invariant match DecodeAll(b, d.pos, order, sig[i..])
                case None => DecodeAll(b, 0, order, sig) == None
                case Some(e) => DecodeAll(b, 0, order, sig) == Some(Decoded(v + e.value, e.pos))
    {
      assert sig[i..][0] == sig[i] && sig[i..][1..] == sig[i + 1..];
      ghost var before := v;
      var x := d.TakeValue(sig[i], 0);
      if x == None {
        return None;
      }
      v := v + [x.value];
      ghost var e := DecodeAll(b, d.pos, order, sig[i + 1..]);
      assert e.Some? ==> before + ([x.value] + e.value.value) == v + e.value.value;
    }
    assert sig[|sig|..] == [] && v + [] == v;
    if d.pos != |b| {
      return None;
    }
    return Some(v);
  }

  lemma NextField(pos: nat, all: seq<Field>, i: nat)
    requires i < |all|
    ensures var start := Zeros(Pad(pos, 8)) + [all[i].code];
            var value := EncodeValue(pos + |start|, Code('v'), VVariant(all[i].signature, all[i].value));
            EncodeFields(pos, all[i..]) ==
              if value.None? || EncodeFields(pos + |start + value.value|, all[i + 1..]).None? then None
              else Some(start + value.value + EncodeFields(pos + |start + value.value|, all[i + 1..]).value)
  {
    hide EncodeValue, Pad, Zeros, Code;
    assert all[i..][0] == all[i] && all[i..][1..] == all[i + 1..];
  }

  lemma NoField(pos: nat)
    ensures EncodeFields(pos, []) == Some([])
  {}

  // The header fields of a message, appended to what h holds.
  method WriteFields(h: Encoder, all: seq<Field>) returns (ok: bool)
    modifies h
    ensures ok <==> EncodeFields(|old(h.b)|, all).Some?
    ensures ok ==> h.b == old(h.b) + EncodeFields(|old(h.b)|, all).value
  {
    hide EncodeValue, EncodeFields, Pad, Zeros, Code;
    ghost var was, header := h.b, EncodeFields(|h.b|, all);
    ghost var done: Text := [];
    assert all[0..] == all;
    assert forall c: Text :: [] + c == c;
    for i := 0 to |all|
      invariant h.b == was + done
      invariant match EncodeFields(|h.b|, all[i..])
                case None => header == None
                case Some(c) => header == Some(done + c)
    {
      NextField(|h.b|, all, i);
      ghost var before := h.b;
      var f := all[i];
      h.AlignTo(8);
      h.b := h.b + [f.code];
      ghost var start := Zeros(Pad(|before|, 8)) + [f.code];
      assert h.b == before + start;
      var put := h.PutValue(Code('v'), VVariant(f.signature, f.value));
      if !put {
        return false;
      }
      ghost var c := EncodeValue(|before + start|, Code('v'), VVariant(f.signature, f.value)).value;
      assert h.b == before + (start + c);
      ghost var rest := EncodeFields(|h.b|, all[i + 1..]);
      assert rest.Some? ==> done + (start + c + rest.value) == (done + (start + c)) + rest.value;
      done := done + (start + c);
    }
    NoField(|h.b|);
    assert all[|all|..] == [] && done + [] == done;
    return true;
  }

  method WriteMessage(kind: Byte, serial: Uint32, fields: seq<Field>, sig: Text, values: seq<Value>)
    returns (r: Option<Text>)
    ensures r == Marshal(kind, serial, fields, sig, values)
  {
    hide EncodeFields, EncodeValues, FixedPart, Pad, Zeros;
    if serial == 0 || kind < 1 || kind > 4 {
      return None;
    }
    var body := EncodeList(sig, values);
    if body == None {
      return None;
    }
    var h := new Encoder(Zeros(16));
    var ok := WriteFields(h, AllFields(fields, sig));
    if !ok {
      return None;
    }
    var headerLength := |h.b| - 16;
    if headerLength > MAX_HEADER {
      return None;
    }
    ghost var header := EncodeFields(16, AllFields(fields, sig)).value;
    h.AlignTo(8);
    h.b := h.b + body.value;
    assert h.b[16..] == header + Zeros(Pad(16 + |header|, 8)) + body.value;
    if |h.b| > MAX_MESSAGE {
      return None;
    }
    return Some(FixedPart(kind, serial, |body.value|, headerLength) + h.b[16..]);
  }

  // A byte stream that may end early.
  class Source {
    var data: Text

    constructor (data: Text)
      ensures this.data == data
    {
      this.data := data;
    }

    method ReadFull(n: nat) returns (r: Option<Text>)
      modifies this
      ensures r == if n <= |old(data)| then Some(old(data)[..n]) else None
      ensures data == if n <= |old(data)| then old(data)[n..] else []
    {
      if n > |data| {
        data := [];
        return None;
      }
      r := Some(data[..n]);
      data := data[n..];
    }
  }

  datatype Reply = Got(m: Message) | EndOfStream | Rejected

  // The header fields of a message: the cursor moves field by field, and a table
  // remembers the codes seen.
  method ReadHeader(b: Text, order: Order) returns (r: Option<Header>)
    ensures r == ReadFields(b, 0, order, NO_FIELDS)
  {
    hide DecodeValue, Accept, Align;
    var d := new Decoder(b, order);
    var seen := new bool[256](_ => false);
    var h := NO_FIELDS;
    while d.pos < |b|
      invariant d.Valid() && d.b == b && d.order == order
      invariant forall c: Byte :: seen[c] <==> c in h.seen
      invariant ReadFields(b, 0, order, NO_FIELDS) == ReadFields(b, d.pos, order, h)
      decreases |b| - d.pos
    {
      ghost var start := d.pos;
      var ok := d.SkipTo(8);
      if !ok || d.pos == |b| {
        return None;
      }
      var code := b[d.pos];
      var bytes := d.Take(1);
      if code == 0 || seen[code] {
        Refused(h, code);
        return None;
      }
      var x := d.TakeValue(Code('v'), 0);
      if x == None {
        return None;
      }
      if !x.value.VVariant? {
        return None;
      }
      var accepted := Gather(h, Field(code, x.value.signature, x.value.v));
      if accepted == None {
        return None;
      }
      h := accepted.value;
      seen[code] := true;
    }
    return Some(h);
  }

  lemma Refused(h: Header, code: Byte)
    requires code == 0 || code in h.seen
    ensures forall sig, v :: Accept(h, Field(code, sig, v)) == None
  {}

  // The signature each known code must have, by code.
  const WANT: seq<Text> := [[], [111], [115], [115], [115], [117], [115], [115], [103], [117]]

  // One field is checked, and what the message needs of it is kept.
  method Gather(h: Header, f: Field) returns (r: Option<Header>)
    requires f.code != 0 && f.code !in h.seen
    ensures r == Accept(h, f) && (r.Some? ==> r.value.seen == h.seen + {f.code})
  {
    hide InterfaceRule, MemberRule, BusNameRule, ValidInterface, ValidMember, ValidBusName;
    if f.code <= 9 && f.signature != WANT[f.code] {
      return None;
    }
    var next := h.(seen := h.seen + {f.code});
    if f.value.VText? { NamesMean(f.value.s); }
    match f.code {
    case 2 =>
      if !f.value.VText? || !ValidInterface(f.value.s) {
        return None;
      }
    case 3 =>
      if !f.value.VText? || !ValidMember(f.value.s) {
        return None;
      }
    case 6 | 7 =>
      if !f.value.VText? || !ValidBusName(f.value.s) {
        return None;
      }
    case 4 =>
      if !f.value.VText? || !ValidInterface(f.value.s) {
        return None;
      }
      next := next.(errorName := f.value.s);
    case 5 =>
      if !f.value.VUint32? || f.value.u == 0 {
        return None;
      }
      next := next.(reply := f.value.u);
    case 8 =>
      if !f.value.VText? {
        return None;
      }
      next := next.(signature := f.value.s);
    case 9 =>
      if !f.value.VUint32? || f.value.u != 0 {
        return None;
      }
    case _ =>
    }
    return Some(next);
  }

  // One whole message off the stream.
  method NextMessage(src: Source) returns (r: Reply)
    modifies src
    ensures match ReadMessage(old(src.data))
            case Read(m, rest) => r == Got(m) && src.data == rest
            case Short => r == EndOfStream
            case Malformed => r == Rejected
  {
    hide ReadFields, DecodeValues, Get32, Pad;
    ghost var input := src.data;
    var fixed := src.ReadFull(16);
    if fixed == None {
      return EndOfStream;
    }
    var f := fixed.value;
    assert f[0] == input[0] && f[1] == input[1] && f[3] == input[3];
    assert f[4..8] == input[4..8] && f[8..12] == input[8..12] && f[12..16] == input[12..16];
    if f[0] != Code('l') && f[0] != Code('B') {
      return Rejected;
    }
    var order := if f[0] == Code('l') then Little else Big;
    var kind, serial := f[1], Get32(order, f[8..12]);
    if f[3] != 1 || kind < 1 || kind > 4 || serial == 0 {
      return Rejected;
    }
    var bodyLength: nat, headerLength: nat := Get32(order, f[4..8]), Get32(order, f[12..16]);
    var padded := headerLength + Pad(headerLength, 8);
    if headerLength > MAX_HEADER || 16 + padded + bodyLength > MAX_MESSAGE {
      return Rejected;
    }
    var bytes := src.ReadFull(padded + bodyLength);
    if bytes == None {
      return EndOfStream;
    }
    var b := bytes.value;
    assert b == input[16..16 + padded + bodyLength];
    var m := ReadBody(b, headerLength, padded, order, kind, serial, src.data);
    return if m == None then Rejected else Got(m.value);
  }

  method ReadBody(b: Text, headerLength: nat, padded: nat, order: Order, kind: Byte, serial: Uint32, ghost rest: Text)
    returns (r: Option<Message>)
    requires headerLength <= padded <= |b|
    ensures match ReadRest(b, headerLength, padded, order, kind, serial, rest)
            case Read(m, left) => r == Some(m) && left == rest
            case _ => r == None
    ensures ReadRest(b, headerLength, padded, order, kind, serial, rest) != Short
  {
    hide ReadFields, DecodeValues;
    var header := ReadHeader(b[..headerLength], order);
    if header == None {
      return None;
    }
    var h := header.value;
    for i := headerLength to padded
      invariant forall k :: headerLength <= k < i ==> b[k] == 0
    {
      if b[i] != 0 {
        return None;
      }
    }
    match kind {
    case 1 =>
      if 1 !in h.seen || 3 !in h.seen {
        return None;
      }
    case 2 | 3 =>
      if 5 !in h.seen || (kind == 3 && (4 !in h.seen || h.errorName == [])) {
        return None;
      }
    case 4 =>
      if 1 !in h.seen || 2 !in h.seen || 3 !in h.seen {
        return None;
      }
    case _ =>
    }
    var values := DecodeList(h.signature, b[padded..], order);
    if values == None {
      return None;
    }
    return Some(Message(kind, serial, h.reply, h.signature, h.errorName, values.value));
  }
}
