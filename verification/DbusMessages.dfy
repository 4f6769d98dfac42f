/**
 D-Bus messages on the wire: a fixed 16-byte part, header fields aligned to 8,
 padding and a body, and what a reader makes of the bytes a writer produced.
 */
module DbusMessages {
  import opened Options
  import opened DbusNames
  import opened DbusValues

  const MAX_HEADER: nat := 16 * 1024

  datatype Field = Field(code: Byte, signature: Text, value: Value)

  datatype Message = Message(kind: Byte, serial: Uint32, reply: Uint32,
                             signature: Text, errorName: Text, values: seq<Value>)

  // The outcome of reading one message: a message and the bytes after it, a
  // stream that ends inside the message, or a malformed message.
  datatype Outcome = Read(m: Message, rest: Text) | Short | Malformed

  // -- Writing ------------------------------------------------------------------

  function EncodeFields(pos: nat, fields: seq<Field>): Option<Text>
    decreases |fields|
  {
    if fields == [] then Some([])
    else
      var f := fields[0];
      var start := Zeros(Pad(pos, 8)) + [f.code];
      match EncodeValue(pos + |start|, Code('v'), VVariant(f.signature, f.value))
      case None => None
      case Some(b) =>
        match EncodeFields(pos + |start + b|, fields[1..])
        case None => None
        case Some(c) => Some(start + b + c)
  }

  // The signature travels as header field 8.
  function AllFields(fields: seq<Field>, sig: Text): seq<Field> {
    if sig == [] then fields else fields + [Field(8, [Code('g')], VText(sig))]
  }

  function FixedPart(kind: Byte, serial: Uint32, bodyLength: Uint32, headerLength: Uint32): (b: Text)
    ensures |b| == 16
  {
    [Code('l'), kind, if kind == 1 then 2 else 0, 1] + Put32(bodyLength) + Put32(serial) + Put32(headerLength)
  }

  function Marshal(kind: Byte, serial: Uint32, fields: seq<Field>, sig: Text, values: seq<Value>): Option<Text> {
    if serial == 0 || kind < 1 || kind > 4 then None
    else
      match EncodeValues(sig, values)
      case None => None
      case Some(body) =>
        match EncodeFields(16, AllFields(fields, sig))
        case None => None
        case Some(header) =>
          var padding := Zeros(Pad(16 + |header|, 8));
          if |header| > MAX_HEADER || 16 + |header| + |padding| + |body| > MAX_MESSAGE then None
          else Some(FixedPart(kind, serial, |body|, |header|) + (header + padding + body))
  }

  // -- Reading -------------------------------------------------------------------

  // The header fields a reader accepts, whatever surrounds them: each known code with
  // its signature and the rule for its value, and every unknown code.
  predicate FieldRule(f: Field) {
    match f.code
    case 0 => false
    case 1 => f.signature == [111]
    case 2 => f.signature == [115] && f.value.VText? && InterfaceRule(f.value.s)
    case 3 => f.signature == [115] && f.value.VText? && MemberRule(f.value.s)
    case 4 => f.signature == [115] && f.value.VText? && InterfaceRule(f.value.s)
    case 5 => f.signature == [117] && f.value.VUint32? && f.value.u != 0
    case 6 => f.signature == [115] && f.value.VText? && BusNameRule(f.value.s)
    case 7 => f.signature == [115] && f.value.VText? && BusNameRule(f.value.s)
    case 8 => f.signature == [103] && f.value.VText?
    case 9 => f.signature == [117] && f.value.VUint32? && f.value.u == 0
    case _ => true
  }

  // What the reader has gathered from the header fields so far.
  datatype Header = Header(seen: set<Byte>, reply: Uint32, signature: Text, errorName: Text)

  const NO_FIELDS := Header({}, 0, [], [])

  function Accept(h: Header, f: Field): Option<Header> {
    if f.code in h.seen || !FieldRule(f) then None
    else Some(Header(h.seen + {f.code},
                     if f.code == 5 then f.value.u else h.reply,
                     if f.code == 8 then f.value.s else h.signature,
                     if f.code == 4 then f.value.s else h.errorName))
  }

  // One header field: alignment, code, variant.
  function ReadField(b: Text, pos: nat, order: Order): (r: Option<Decoded<Field>>)
    requires pos < |b|
    ensures r.Some? ==> pos < r.value.pos <= |b|
  {
    match Align(b, pos, 8)
    case None => None
    case Some(p) =>
      if p == |b| then None
      else
        match DecodeValue(b, p + 1, order, Code('v'), 0)
        case None => None
        case Some(d) =>
          DecodedAfter(b, p + 1, order, Code('v'), 0);
          if !d.value.VVariant? then None
          else Some(Decoded(Field(b[p], d.value.signature, d.value.v), d.pos))
  }

  function ReadFields(b: Text, pos: nat, order: Order, h: Header): Option<Header>
    requires pos <= |b|
    decreases |b| - pos
  {
    if pos == |b| then Some(h)
    else
      match ReadField(b, pos, order)
      case None => None
      case Some(d) =>
        match Accept(h, d.value)
        case None => None
        case Some(h') => ReadFields(b, d.pos, order, h')
  }

  // The fields each kind of message must have.
  predicate Complete(kind: Byte, seen: set<Byte>) {
    && (kind == 1 ==> {1, 3} <= seen)
    && (kind == 2 ==> 5 in seen)
    && (kind == 3 ==> {4, 5} <= seen)
    && (kind == 4 ==> {1, 2, 3} <= seen)
  }

  function ReadMessage(input: Text): Outcome {
    if |input| < 16 then Short
    else if input[0] != Code('l') && input[0] != Code('B') then Malformed
    else
      var order := if input[0] == Code('l') then Little else Big;
      var kind := input[1];
      var serial := Get32(order, input[8..12]);
      if input[3] != 1 || kind < 1 || kind > 4 || serial == 0 then Malformed
      else
        var bodyLength: nat := Get32(order, input[4..8]);
        var headerLength: nat := Get32(order, input[12..16]);
        var padded := headerLength + Pad(headerLength, 8);
        if headerLength > MAX_HEADER || 16 + padded + bodyLength > MAX_MESSAGE then Malformed
        else if |input| - 16 < padded + bodyLength then Short
        else ReadRest(input[16..16 + padded + bodyLength], headerLength, padded, order, kind, serial,
                      input[16 + padded + bodyLength..])
  }

  // Header fields, padding and body, once all their bytes are there.
  function ReadRest(b: Text, headerLength: nat, padded: nat, order: Order, kind: Byte, serial: Uint32, rest: Text): Outcome
    requires headerLength <= padded <= |b|
  {
    match ReadFields(b[..headerLength], 0, order, NO_FIELDS)
    case None => Malformed
    case Some(h) =>
      if (exists i :: headerLength <= i < padded && b[i] != 0) || !Complete(kind, h.seen)
         || (kind == 3 && h.errorName == []) then Malformed
      else
        match DecodeValues(h.signature, b[padded..], order)
        case None => Malformed
        case Some(values) => Read(Message(kind, serial, h.reply, h.signature, h.errorName, values), rest)
  }

  // -- What the reader makes of written header fields ---------------------------------

  function AcceptAll(h: Header, fields: seq<Field>): Option<Header>
    decreases |fields|
  {
    if fields == [] then Some(h)
    else match Accept(h, fields[0])
         case None => None
         case Some(h') => AcceptAll(h', fields[1..])
  }

  lemma ReadFieldEncoded(b: Text, pos: nat, pos0: nat, f: Field, c: Text)
    requires pos < |b| && pos % 8 == pos0 % 8
    requires var start := Zeros(Pad(pos0, 8)) + [f.code];
             && EncodeValue(pos0 + |start|, Code('v'), VVariant(f.signature, f.value)) == Some(c)
             && At(b, pos, start + c)
    ensures ReadField(b, pos, Little) == Some(Decoded(f, pos + Pad(pos0, 8) + 1 + |c|))
  {
    hide EncodeValue, DecodeValue, At, Align, Pad, Zeros;
    var zeros := Zeros(Pad(pos0, 8));
    var p := pos + |zeros|;
    AtSplit(b, pos, zeros + [f.code], c);
    AtSplit(b, pos, zeros, [f.code]);
    AlignAt(b, pos, pos0, 8);
    ByteAt(b, p, f.code);
    Congruent(pos, pos0, |zeros| + 1);
    DecodeEncoded(b, p + 1, pos0 + |zeros| + 1, Code('v'), VVariant(f.signature, f.value), 0);
  }

  lemma Congruent(pos: nat, pos0: nat, k: nat)
    requires pos % 8 == pos0 % 8
    ensures (pos + k) % 8 == (pos0 + k) % 8
  {}

  lemma {:induction false} ReadFieldsEncoded(b: Text, pos: nat, pos0: nat, fields: seq<Field>, h: Header)
    requires pos <= |b| && pos % 8 == pos0 % 8 && EncodeFields(pos0, fields).Some?
    requires At(b, pos, EncodeFields(pos0, fields).value)
    requires pos + |EncodeFields(pos0, fields).value| == |b|
    ensures ReadFields(b, pos, Little, h) == AcceptAll(h, fields)
    decreases |fields|
  {
    hide EncodeValue, ReadField, Accept, Pad, Zeros, At;
    if fields != [] {
      var f := fields[0];
      var start := Zeros(Pad(pos0, 8)) + [f.code];
      var c := EncodeValue(pos0 + |start|, Code('v'), VVariant(f.signature, f.value)).value;
      var d := EncodeFields(pos0 + |start + c|, fields[1..]).value;
      AtSplit(b, pos, start + c, d);
      AtFits(b, pos, start + c);
      Congruent(pos, pos0, |start + c|);
      ReadFieldEncoded(b, pos, pos0, f, c);
      match Accept(h, f)
      case None =>
      case Some(h') =>
        ReadFieldsEncoded(b, pos + |start + c|, pos0 + |start + c|, fields[1..], h');
    }
  }

  // -- When a header is accepted, and what it then says --------------------------------

  ghost predicate Distinct(fields: seq<Field>) {
    forall i, j :: 0 <= i < j < |fields| ==> fields[i].code != fields[j].code
  }

  function Codes(fields: seq<Field>): set<Byte> {
    set i | 0 <= i < |fields| :: fields[i].code
  }

  ghost predicate Acceptable(fields: seq<Field>) {
    Distinct(fields) && forall i :: 0 <= i < |fields| ==> FieldRule(fields[i])
  }

  // The value of the field with a code, if there is one.
  function Find(fields: seq<Field>, code: Byte): Option<Value>
    decreases |fields|
  {
    if fields == [] then None
    else if fields[0].code == code then Some(fields[0].value)
    else Find(fields[1..], code)
  }

  function FindText(fields: seq<Field>, code: Byte): Text {
    match Find(fields, code)
    case Some(VText(s)) => s
    case _ => []
  }

  function FindUint32(fields: seq<Field>, code: Byte): Uint32 {
    match Find(fields, code)
    case Some(VUint32(u)) => u
    case _ => 0
  }

  // Folding the fields in one at a time accepts exactly the headers whose codes
  // are distinct and whose fields are valid, and gathers their values.
  lemma {:induction false} AcceptAllMeaning(h: Header, fields: seq<Field>)
    ensures AcceptAll(h, fields).Some? <==> Acceptable(fields) && h.seen !! Codes(fields)
    ensures AcceptAll(h, fields).Some? ==>
              var r := AcceptAll(h, fields).value;
              && r.seen == h.seen + Codes(fields)
              && r.reply == (if 5 in Codes(fields) then FindUint32(fields, 5) else h.reply)
              && r.signature == (if 8 in Codes(fields) then FindText(fields, 8) else h.signature)
              && r.errorName == (if 4 in Codes(fields) then FindText(fields, 4) else h.errorName)
    decreases |fields|
  {
    hide FieldRule;
    if fields == [] {
    } else {
      var f, rest := fields[0], fields[1..];
      CodesCons(fields);
      AcceptableCons(fields);
      FieldKinds(f);
      match Accept(h, f)
      case None =>
      case Some(h') => AcceptAllMeaning(h', rest);
    }
  }

  lemma FieldKinds(f: Field)
    ensures FieldRule(f) && (f.code == 4 || f.code == 8) ==> f.value.VText?
    ensures FieldRule(f) && f.code == 5 ==> f.value.VUint32?
  {}

  lemma CodesCons(fields: seq<Field>)
    requires fields != []
    ensures Codes(fields) == {fields[0].code} + Codes(fields[1..])
  {
    forall c ensures c in Codes(fields) <==> c == fields[0].code || c in Codes(fields[1..]) {
      if c in Codes(fields) && c != fields[0].code {
        var i :| 0 <= i < |fields| && fields[i].code == c;
        assert fields[1..][i - 1].code == c;
      }
      if c in Codes(fields[1..]) {
        var i :| 0 <= i < |fields[1..]| && fields[1..][i].code == c;
        assert fields[i + 1].code == c;
      }
    }
  }

  lemma AcceptableCons(fields: seq<Field>)
    requires fields != []
    ensures Acceptable(fields) <==>
              FieldRule(fields[0]) && fields[0].code !in Codes(fields[1..]) && Acceptable(fields[1..])
  {
    hide FieldRule;
    var f, rest := fields[0], fields[1..];
    if Acceptable(fields) {
      forall i, j | 0 <= i < j < |rest| ensures rest[i].code != rest[j].code {
        assert fields[i + 1].code != fields[j + 1].code;
      }
      forall i | 0 <= i < |rest| ensures FieldRule(rest[i]) && rest[i].code != f.code {
        assert FieldRule(fields[i + 1]) && fields[0].code != fields[i + 1].code;
      }
    }
    if FieldRule(f) && f.code !in Codes(rest) && Acceptable(rest) {
      forall i, j | 0 <= i < j < |fields| ensures fields[i].code != fields[j].code {
        assert fields[j] == rest[j - 1];
        if i > 0 { assert fields[i] == rest[i - 1]; }
      }
      forall i | 0 <= i < |fields| ensures FieldRule(fields[i]) {
        if i > 0 { assert fields[i] == rest[i - 1]; }
      }
    }
  }

  // -- The round trip ------------------------------------------------------------------------

  ghost predicate Has(fields: seq<Field>, code: Byte) {
    exists i :: 0 <= i < |fields| && fields[i].code == code
  }

  // What each kind of message must say: a call its path and member, a reply what it
  // answers, an error that and its name, a signal its path, interface and member.
  ghost predicate HasRequired(kind: Byte, fields: seq<Field>) {
    match kind
    case 1 => Has(fields, 1) && Has(fields, 3)
    case 2 => Has(fields, 5)
    case 3 => Has(fields, 4) && Has(fields, 5)
    case 4 => Has(fields, 1) && Has(fields, 2) && Has(fields, 3)
    case _ => true
  }

  // The messages a reader accepts from a writer: header fields valid and
  // distinct, those the kind requires present, and no signature field but the body's.
  ghost predicate WellFormed(kind: Byte, fields: seq<Field>, sig: Text) {
    var all := AllFields(fields, sig);
    && Acceptable(all) && HasRequired(kind, all)
    && forall i :: 0 <= i < |all| && all[i].code == 8 ==> all[i].value == VText(sig)
  }

  lemma CompleteMeans(kind: Byte, fields: seq<Field>)
    ensures Complete(kind, Codes(fields)) <==> HasRequired(kind, fields)
  {
    forall c: Byte ensures c in Codes(fields) <==> Has(fields, c) {}
    hide Codes, Has;
  }

  // The one field with a code is the one that is found.
  lemma {:induction false} FindIs(fields: seq<Field>, i: nat)
    requires Distinct(fields) && i < |fields|
    ensures Find(fields, fields[i].code) == Some(fields[i].value)
    decreases |fields|
  {
    if i > 0 {
      assert fields[0].code != fields[i].code;
      assert fields[1..][i - 1] == fields[i];
      forall a, b | 0 <= a < b < |fields[1..]| ensures fields[1..][a].code != fields[1..][b].code {
        assert fields[a + 1].code != fields[b + 1].code;
      }
      FindIs(fields[1..], i - 1);
    }
  }

  lemma SignatureMeans(fields: seq<Field>, sig: Text)
    requires Acceptable(AllFields(fields, sig))
    ensures var all := AllFields(fields, sig);
            FindText(all, 8) == sig <==> forall i :: 0 <= i < |all| && all[i].code == 8 ==> all[i].value == VText(sig)
  {
    var all := AllFields(fields, sig);
    hide AllFields, Find;
    forall i | 0 <= i < |all| && all[i].code == 8 ensures FindText(all, 8) == sig <==> all[i].value == VText(sig) {
      FindIs(all, i);
      assert FieldRule(all[i]);
    }
    Absent(all, 8);
    if forall i :: 0 <= i < |all| ==> all[i].code != 8 { NoSignature(fields, sig); }
  }

  lemma NoSignature(fields: seq<Field>, sig: Text)
    requires var all := AllFields(fields, sig); forall i :: 0 <= i < |all| ==> all[i].code != 8
    ensures sig == [] && 8 !in Codes(AllFields(fields, sig))
  {
    if sig != [] { LastIsSignature(fields, sig); }
  }

  lemma LastIsSignature(fields: seq<Field>, sig: Text)
    requires sig != []
    ensures var all := AllFields(fields, sig); |all| == |fields| + 1 && all[|fields|].code == 8
  {}

  lemma FixedPartFields(kind: Byte, serial: Uint32, body: Uint32, header: Uint32, input: Text)
    requires |input| >= 16 && input[..16] == FixedPart(kind, serial, body, header)
    ensures input[0] == Code('l') && input[1] == kind && input[3] == 1
    ensures Get32(Little, input[4..8]) == body
    ensures Get32(Little, input[8..12]) == serial
    ensures Get32(Little, input[12..16]) == header
  {
    hide Put32, Get32;
    var b := input[..16];
    assert b[0] == input[0] && b[1] == input[1] && b[3] == input[3];
    assert input[4..8] == b[4..8] == Put32(body);
    assert input[8..12] == b[8..12] == Put32(serial);
    assert input[12..16] == b[12..16] == Put32(header);
    Get32Put(body);
    Get32Put(serial);
    Get32Put(header);
  }

  lemma EmptyBody(sig: Text)
    requires sig != []
    ensures DecodeValues(sig, [], Little) == None
  {
    hide DecodeAll, Supported;
    if DecodeAll([], 0, Little, sig).Some? { DecodeAllAfter([], 0, Little, sig); }
  }

  // The header of an error message that is accepted names a non-empty error.
  lemma ErrorNamed(fields: seq<Field>)
    requires Acceptable(fields) && 4 in Codes(fields)
    ensures FindText(fields, 4) != []
    decreases |fields|
  {
    hide FieldRule;
    CodesCons(fields);
    AcceptableCons(fields);
    if fields[0].code == 4 {
      InterfaceNonEmpty(fields[0]);
    } else {
      ErrorNamed(fields[1..]);
    }
  }

  lemma InterfaceNonEmpty(f: Field)
    requires FieldRule(f) && f.code == 4
    ensures f.value.VText? && f.value.s != []
  {
  }

  // Reading the header, padding and body of a marshalled message.
  lemma ReadRestMarshalled(kind: Byte, serial: Uint32, fields: seq<Field>, sig: Text, values: seq<Value>,
                           header: Text, body: Text, b: Text, rest: Text)
    requires EncodeValues(sig, values) == Some(body)
    requires EncodeFields(16, AllFields(fields, sig)) == Some(header)
    requires b == header + Zeros(Pad(|header|, 8)) + body
    ensures var all, padded := AllFields(fields, sig), |header| + Pad(|header|, 8);
            ReadRest(b, |header|, padded, Little, kind, serial, rest) ==
            if WellFormed(kind, fields, sig)
            then Read(Message(kind, serial, FindUint32(all, 5), sig, FindText(all, 4), values), rest)
            else Malformed
  {
    hide EncodeValues, DecodeValues, EncodeFields, ReadFields, AcceptAll, Acceptable, Codes, Find, Pad;
    var all, padded := AllFields(fields, sig), |header| + Pad(|header|, 8);
    assert b[..|header|] == header && b[padded..] == body;
    forall i | |header| <= i < padded ensures b[i] == 0 {
      assert b[i] == Zeros(Pad(|header|, 8))[i - |header|];
    }
    AtWhole(header);
    ReadFieldsEncoded(header, 0, 16, all, NO_FIELDS);
    AcceptAllMeaning(NO_FIELDS, all);
    CompleteMeans(kind, all);
    if Acceptable(all) { SignatureMeans(fields, sig); }
    Absent(all, 8);
    Absent(all, 4);
    Absent(all, 5);
    if Acceptable(all) {
      assert AcceptAll(NO_FIELDS, all).value.seen == Codes(all);
      if sig != [] { SignatureFound(fields, sig); }
      if 4 in Codes(all) { ErrorNamed(all); }
      ValuesRoundTrip(sig, values);
      if sig == [] {
        EmptyValues(values, body);
        if FindText(all, 8) != [] { EmptyBody(FindText(all, 8)); }
      }
    }
  }

  lemma AtWhole(b: Text)
    ensures At(b, 0, b)
  {
    assert b[0..|b|] == b;
  }

  lemma {:induction false} Absent(fields: seq<Field>, code: Byte)
    ensures code !in Codes(fields) ==> Find(fields, code) == None
    decreases |fields|
  {
    if fields != [] {
      CodesCons(fields);
      Absent(fields[1..], code);
    }
  }

  lemma EmptyValues(values: seq<Value>, body: Text)
    requires EncodeValues([], values) == Some(body)
    ensures body == []
  {}

  lemma {:induction false} FindLast(fields: seq<Field>, f: Field)
    requires f.code !in Codes(fields)
    ensures Find(fields + [f], f.code) == Some(f.value)
    decreases |fields|
  {
    if fields != [] {
      CodesCons(fields);
      assert (fields + [f])[1..] == fields[1..] + [f];
      FindLast(fields[1..], f);
    }
  }

  lemma SignatureFound(fields: seq<Field>, sig: Text)
    requires Acceptable(AllFields(fields, sig)) && sig != []
    ensures FindText(AllFields(fields, sig), 8) == sig && 8 in Codes(AllFields(fields, sig))
  {
    hide FieldRule, Find;
    var f := Field(8, [Code('g')], VText(sig));
    var all := fields + [f];
    assert all[|fields|] == f;
    forall i | 0 <= i < |fields| ensures fields[i].code != 8 {
      assert all[i].code != all[|fields|].code;
    }
    FindLast(fields, f);
  }

  // What a word of the fixed part stands for, by its bytes.
  function Word(b: Text, at: nat, little: bool): nat
    requires at + 4 <= |b|
  {
    if little then b[at] as int + 0x100 * b[at + 1] as int + 0x1_0000 * b[at + 2] as int + 0x100_0000 * b[at + 3] as int
    else b[at + 3] as int + 0x100 * b[at + 2] as int + 0x1_0000 * b[at + 1] as int + 0x100_0000 * b[at] as int
  }

  lemma WordIs(b: Text, at: nat)
    requires at + 4 <= |b|
    ensures Get32(Little, b[at..at + 4]) == Word(b, at, true) && Get32(Big, b[at..at + 4]) == Word(b, at, false)
  {
    var w := b[at..at + 4];
    assert w[0] == b[at] && w[1] == b[at + 1] && w[2] == b[at + 2] && w[3] == b[at + 3];
  }

  // A message is made exactly of a kind and a serial that exist, values and fields that
  // can be sent, a header of at most 16 KiB and 64 KiB in all; and how it begins.
  lemma MarshalsExactly(kind: Byte, serial: Uint32, fields: seq<Field>, sig: Text, values: seq<Value>)
    ensures var (body, header) := (EncodeValues(sig, values), EncodeFields(16, AllFields(fields, sig)));
            Marshal(kind, serial, fields, sig, values).Some? <==>
              && serial != 0 && 1 <= kind <= 4 && body.Some? && header.Some? && |header.value| <= 16384
              && 16 + |header.value| + (-|header.value|) % 8 + |body.value| <= 65536
    ensures Marshal(kind, serial, fields, sig, values).Some? ==>
              var b := Marshal(kind, serial, fields, sig, values).value;
              var (body, header) := (EncodeValues(sig, values).value, EncodeFields(16, AllFields(fields, sig)).value);
              && |b| == 16 + |header| + (-|header|) % 8 + |body|
              && b[0] == 108 && b[1] == kind && b[2] == (if kind == 1 then 2 else 0) && b[3] == 1
              && Word(b, 4, true) == |body| && Word(b, 8, true) == serial && Word(b, 12, true) == |header|
              && b[16..16 + |header|] == header && b[|b| - |body|..] == body
  {
    hide EncodeValues, EncodeFields, AllFields;
    if Marshal(kind, serial, fields, sig, values).Some? {
      var b := Marshal(kind, serial, fields, sig, values).value;
      var body, header := EncodeValues(sig, values).value, EncodeFields(16, AllFields(fields, sig)).value;
      PadCongruent(16 + |header|, |header|);
      HeadIs(kind, serial, |body|, |header|, b);
      hide Put32, Word, FixedPart;
    } else if EncodeFields(16, AllFields(fields, sig)).Some? {
      var header := EncodeFields(16, AllFields(fields, sig)).value;
      PadCongruent(16 + |header|, |header|);
    }
  }

  lemma HeadIs(kind: Byte, serial: Uint32, body: Uint32, header: Uint32, b: Text)
    requires |b| >= 16 && b[..16] == FixedPart(kind, serial, body, header)
    ensures b[0] == 108 && b[1] == kind && b[2] == (if kind == 1 then 2 else 0) && b[3] == 1
    ensures Word(b, 4, true) == body && Word(b, 8, true) == serial && Word(b, 12, true) == header
  {
    FixedPartFields(kind, serial, body, header, b);
    WordIs(b, 4);
    WordIs(b, 8);
    WordIs(b, 12);
    assert b[..16][2] == b[2];
    hide Put32, Get32, Word;
  }

  lemma HeadTests(input: Text)
    requires |input| >= 16
    ensures var order := if input[0] == 108 then Little else Big;
            var body, header := Get32(order, input[4..8]), Get32(order, input[12..16]);
            var n := header + Pad(header, 8);
            if (input[0] != 108 && input[0] != 66) || input[3] != 1 || input[1] < 1 || input[1] > 4
               || Get32(order, input[8..12]) == 0 || header > 16384 || 16 + n + body > 65536
            then ReadMessage(input) == Malformed
            else if |input| - 16 < n + body then ReadMessage(input) == Short
            else ReadMessage(input) ==
                 ReadRest(input[16..16 + n + body], header, n, order, input[1], Get32(order, input[8..12]),
                          input[16 + n + body..])
  {
    hide Get32, ReadRest, Pad;
  }

  lemma PadIs(k: nat)
    ensures Pad(k, 8) == (-(k as int)) % 8
  {}

  // What a reader makes of the first sixteen bytes: the order, the kind, the serial and
  // both lengths decide whether the message is malformed, cut short or read on.
  lemma HeadDecides(input: Text)
    requires |input| >= 16
    ensures var little := input[0] == 108;
            var (body, header) := (Word(input, 4, little), Word(input, 12, little));
            var n := header + (-(header as int)) % 8;
            if (input[0] != 108 && input[0] != 66) || input[3] != 1 || input[1] < 1 || input[1] > 4
               || Word(input, 8, little) == 0 || header > 16384 || 16 + n + body > 65536
            then ReadMessage(input) == Malformed
            else if |input| < 16 + n + body then ReadMessage(input) == Short
            else ReadMessage(input) ==
                 ReadRest(input[16..16 + n + body], header, n, if little then Little else Big, input[1],
                          Word(input, 8, little), input[16 + n + body..])
  {
    hide *;
    WordIs(input, 4);
    WordIs(input, 8);
    WordIs(input, 12);
    PadIs(Word(input, 12, input[0] == 108));
    HeadTests(input);
  }

  // A message that was marshalled reads back as itself, consuming exactly its own
  // bytes, if and only if it is well formed; otherwise it is rejected.
  lemma ReadMarshalled(kind: Byte, serial: Uint32, fields: seq<Field>, sig: Text, values: seq<Value>, rest: Text)
    requires Marshal(kind, serial, fields, sig, values).Some?
    ensures var all := AllFields(fields, sig);
            ReadMessage(Marshal(kind, serial, fields, sig, values).value + rest) ==
            if WellFormed(kind, fields, sig)
            then Read(Message(kind, serial, FindUint32(all, 5), sig, FindText(all, 4), values), rest)
            else Malformed
  {
    hide EncodeValues, DecodeValues, EncodeFields, ReadRest, WellFormed, FixedPart, Get32, Find, Pad, Zeros;
    var body := EncodeValues(sig, values).value;
    var header := EncodeFields(16, AllFields(fields, sig)).value;
    var fixed := FixedPart(kind, serial, |body|, |header|);
    var padding := Zeros(Pad(16 + |header|, 8));
    PadCongruent(16 + |header|, |header|);
    var b := header + padding + body;
    var input := fixed + b + rest;
    assert input == Marshal(kind, serial, fields, sig, values).value + rest;
    assert input[..16] == fixed;
    FixedPartFields(kind, serial, |body|, |header|, input);
    var n := |b|;
    assert input[16..16 + n] == b && input[16 + n..] == rest;
    ReadRestMarshalled(kind, serial, fields, sig, values, header, body, b, rest);
  }

  // -- Streams of messages ----------------------------------------------------------------------

  datatype Draft = Draft(kind: Byte, serial: Uint32, fields: seq<Field>, signature: Text, values: seq<Value>) {
    ghost predicate Sendable() {
      Marshal(kind, serial, fields, signature, values).Some? && WellFormed(kind, fields, signature)
    }

    // What is sent: nothing when marshalling fails.
    function Bytes(): Text {
      match Marshal(kind, serial, fields, signature, values)
      case Some(b) => b
      case None => []
    }

    function AsRead(): Message {
      var all := AllFields(fields, signature);
      Message(kind, serial, FindUint32(all, 5), signature, FindText(all, 4), values)
    }
  }

  function Stream(drafts: seq<Draft>): Text {
    if drafts == [] then [] else drafts[0].Bytes() + Stream(drafts[1..])
  }

  function AllRead(drafts: seq<Draft>): seq<Message> {
    if drafts == [] then [] else [drafts[0].AsRead()] + AllRead(drafts[1..])
  }

  // n messages read one after another, and the bytes left.
  function ReadN(input: Text, n: nat): Option<(seq<Message>, Text)> {
    if n == 0 then Some(([], input))
    else match ReadMessage(input)
         case Read(m, rest) =>
           (match ReadN(rest, n - 1)
            case Some((ms, left)) => Some(([m] + ms, left))
            case None => None)
         case _ => None
  }

  lemma {:induction false} StreamRoundTrip(drafts: seq<Draft>, rest: Text)
    requires forall i :: 0 <= i < |drafts| ==> drafts[i].Sendable()
    ensures ReadN(Stream(drafts) + rest, |drafts|)
         == Some((AllRead(drafts), rest))
    decreases |drafts|
  {
    hide Marshal, ReadMessage, WellFormed;
    hide Draft.AsRead, Draft.Bytes;
    if drafts == [] {
      assert Stream(drafts) + rest == rest;
    } else {
      var d, more := drafts[0], drafts[1..];
      StreamRoundTrip(more, rest);
      ReadDraft(d, Stream(more) + rest);
      var input := Stream(drafts) + rest;
      assert input == d.Bytes() + (Stream(more) + rest);
      assert ReadMessage(input) == Read(d.AsRead(), Stream(more) + rest);
    }
  }

  lemma ReadDraft(d: Draft, rest: Text)
    requires d.Sendable()
    ensures ReadMessage(d.Bytes() + rest) == Read(d.AsRead(), rest)
  {
    hide Marshal, ReadMessage, WellFormed, AllFields, Find;
    ReadMarshalled(d.kind, d.serial, d.fields, d.signature, d.values, rest);
  }
}
