/**
 The texts of the D-Bus: names, paths, signatures and UTF-8, as the codec tests them,
 and what those tests mean in terms of single bytes.
 */
module DbusNames {

  type Byte = b: int | 0 <= b < 0x100
  type Text = seq<Byte>

  function Code(c: char): (b: Byte)
    requires c < 128 as char
  {
    c as int
  }

  // -- As the codec tests them ------------------------------------------------------

  predicate SupportedCode(c: Byte) {
    c in [Code('y'), Code('i'), Code('u'), Code('x'), Code('t'), Code('s'), Code('o'), Code('g'), Code('v')]
  }

  predicate Supported(sig: Text) {
    |sig| <= 255 && forall i :: 0 <= i < |sig| ==> SupportedCode(sig[i])
  }

  function Split(s: Text, sep: Byte): (parts: seq<Text>)
    ensures |parts| >= 1
  {
    if s == [] then [[]]
    else
      var rest := Split(s[1..], sep);
      if s[0] == sep then [[]] + rest else [[s[0]] + rest[0]] + rest[1..]
  }

  predicate IsLetter(c: Byte) {
    Code('a') <= c <= Code('z') || Code('A') <= c <= Code('Z')
  }

  predicate IsDigit(c: Byte) {
    Code('0') <= c <= Code('9')
  }

  predicate ValidPath(s: Text) {
    || s == [Code('/')]
    || (s != [] && s[0] == Code('/') &&
        var parts := Split(s[1..], Code('/'));
        forall k :: 0 <= k < |parts| ==>
          parts[k] != [] &&
          forall i :: 0 <= i < |parts[k]| ==>
            IsLetter(parts[k][i]) || IsDigit(parts[k][i]) || parts[k][i] == Code('_'))
  }

  predicate ValidElement(s: Text, digitsFirst: bool, hyphen: bool) {
    s != [] &&
    forall i :: 0 <= i < |s| ==>
      || IsLetter(s[i]) || s[i] == Code('_')
      || (IsDigit(s[i]) && (i > 0 || digitsFirst))
      || (hyphen && s[i] == Code('-'))
  }

  predicate ValidElements(parts: seq<Text>, digitsFirst: bool, hyphen: bool) {
    |parts| >= 2 && forall k :: 0 <= k < |parts| ==> ValidElement(parts[k], digitsFirst, hyphen)
  }

  predicate ValidInterface(s: Text) {
    |s| <= 255 && ValidElements(Split(s, Code('.')), false, false)
  }

  predicate ValidMember(s: Text) {
    |s| <= 255 && ValidElement(s, false, false)
  }

  predicate ValidBusName(s: Text) {
    0 < |s| <= 255 &&
    var unique := s[0] == Code(':');
    ValidElements(Split(if unique then s[1..] else s, Code('.')), unique, true)
  }

  predicate Continuation(b: Byte) {
    0x80 <= b < 0xC0
  }

  // Well-formed UTF-8, RFC 3629 section 4.
  predicate ValidUtf8(s: Text) {
    if s == [] then true
    else if s[0] < 0x80 then ValidUtf8(s[1..])
    else if 0xC2 <= s[0] < 0xE0 then |s| >= 2 && Continuation(s[1]) && ValidUtf8(s[2..])
    else if 0xE0 <= s[0] < 0xF0 then
      && |s| >= 3 && Continuation(s[1]) && Continuation(s[2])
      && (s[0] == 0xE0 ==> s[1] >= 0xA0) && (s[0] == 0xED ==> s[1] < 0xA0)
      && ValidUtf8(s[3..])
    else if 0xF0 <= s[0] < 0xF5 then
      && |s| >= 4 && Continuation(s[1]) && Continuation(s[2]) && Continuation(s[3])
      && (s[0] == 0xF0 ==> s[1] >= 0x90) && (s[0] == 0xF4 ==> s[1] < 0x90)
      && ValidUtf8(s[4..])
    else false
  }

  // -- By their bytes ----------------------------------------------------------------

  // A byte that an element may hold; behind is whether another stands before it there.
  predicate InElement(c: Byte, behind: bool, digitsFirst: bool, hyphen: bool) {
    || 97 <= c <= 122 || 65 <= c <= 90 || c == 95
    || (48 <= c <= 57 && (behind || digitsFirst))
    || (hyphen && c == 45)
  }

  // Whether another byte of an element stands before byte i.
  predicate Behind(s: Text, sep: Byte, begun: bool, i: nat)
    requires i < |s|
  {
    if i == 0 then begun else s[i - 1] != sep
  }

  // Elements between separators, none of them empty: no separator is first, last or
  // behind another, and every other byte may stand where it does.
  predicate Elements(s: Text, sep: Byte, digitsFirst: bool, hyphen: bool) {
    && s != [] && s[0] != sep && s[|s| - 1] != sep
    && (forall i :: 0 < i < |s| ==> s[i - 1] != sep || s[i] != sep)
    && forall i :: 0 <= i < |s| && s[i] != sep ==> InElement(s[i], Behind(s, sep, false, i), digitsFirst, hyphen)
  }

  predicate PathRule(s: Text) {
    s == [47] || (|s| > 1 && s[0] == 47 && Elements(s[1..], 47, true, false))
  }

  predicate InterfaceRule(s: Text) {
    |s| <= 255 && 46 in s && Elements(s, 46, false, false)
  }

  predicate MemberRule(s: Text) {
    && 0 < |s| <= 255
    && forall i :: 0 <= i < |s| ==> InElement(s[i], i > 0, false, false)
  }

  // A name of a connection begins with a colon, and its elements may begin with digits.
  predicate BusNameRule(s: Text) {
    && 0 < |s| <= 255
    && var name := if s[0] == 58 then s[1..] else s;
       46 in name && Elements(name, 46, s[0] == 58, true)
  }

  // -- That is the same ----------------------------------------------------------------

  // Elements, the first of which may have begun before.
  predicate ElementsFrom(s: Text, sep: Byte, digitsFirst: bool, hyphen: bool, begun: bool) {
    && (s == [] ==> begun)
    && (s != [] ==> (begun || s[0] != sep) && s[|s| - 1] != sep)
    && (forall i :: 0 < i < |s| ==> s[i - 1] != sep || s[i] != sep)
    && forall i :: 0 <= i < |s| && s[i] != sep ==>
         InElement(s[i], Behind(s, sep, begun, i), digitsFirst, hyphen)
  }

  // The rest of an element that has begun.
  predicate Continues(part: Text, digitsFirst: bool, hyphen: bool) {
    forall i :: 0 <= i < |part| ==> InElement(part[i], true, digitsFirst, hyphen)
  }

  predicate Parts(parts: seq<Text>, digitsFirst: bool, hyphen: bool, begun: bool)
    requires |parts| >= 1
  {
    && (if begun then Continues(parts[0], digitsFirst, hyphen) else ValidElement(parts[0], digitsFirst, hyphen))
    && forall k :: 1 <= k < |parts| ==> ValidElement(parts[k], digitsFirst, hyphen)
  }

  lemma PartsCons(c: Byte, parts: seq<Text>, digitsFirst: bool, hyphen: bool, begun: bool)
    requires |parts| >= 1
    ensures Parts([[c] + parts[0]] + parts[1..], digitsFirst, hyphen, begun) <==>
              InElement(c, begun, digitsFirst, hyphen) && Parts(parts, digitsFirst, hyphen, true)
  {
    FirstCons(c, parts[0], digitsFirst, hyphen);
    hide ValidElement, InElement, Continues;
    var more := [[c] + parts[0]] + parts[1..];
    assert |more| == |parts| && forall k :: 1 <= k < |parts| ==> more[k] == parts[k];
  }

  lemma PartsBegin(parts: seq<Text>, digitsFirst: bool, hyphen: bool, begun: bool)
    requires |parts| >= 1
    ensures Parts([[]] + parts, digitsFirst, hyphen, begun) <==> begun && Parts(parts, digitsFirst, hyphen, false)
  {
    var after := [[]] + parts;
    assert forall k :: 0 <= k < |parts| ==> after[k + 1] == parts[k];
    assert after[0] == [] && Continues([], digitsFirst, hyphen) && !ValidElement([], digitsFirst, hyphen);
    hide ValidElement, Continues;
    if Parts(parts, digitsFirst, hyphen, false) {
      forall k | 1 <= k < |after| ensures ValidElement(after[k], digitsFirst, hyphen) {
        assert after[k] == parts[k - 1];
      }
    }
    if Parts(after, digitsFirst, hyphen, begun) {
      forall k | 0 <= k < |parts| ensures ValidElement(parts[k], digitsFirst, hyphen) {
        assert after[k + 1] == parts[k];
      }
    }
  }

  lemma FirstCons(c: Byte, part: Text, digitsFirst: bool, hyphen: bool)
    ensures ValidElement([c] + part, digitsFirst, hyphen) <==>
              InElement(c, false, digitsFirst, hyphen) && Continues(part, digitsFirst, hyphen)
    ensures Continues([c] + part, digitsFirst, hyphen) <==>
              InElement(c, true, digitsFirst, hyphen) && Continues(part, digitsFirst, hyphen)
  {
    var all := [c] + part;
    assert all[0] == c && forall i :: 0 <= i < |part| ==> all[i + 1] == part[i];
  }

  lemma ElementsCons(s: Text, sep: Byte, digitsFirst: bool, hyphen: bool, begun: bool)
    requires s != []
    ensures ElementsFrom(s, sep, digitsFirst, hyphen, begun) <==>
              if s[0] == sep then begun && ElementsFrom(s[1..], sep, digitsFirst, hyphen, false)
              else InElement(s[0], begun, digitsFirst, hyphen) && ElementsFrom(s[1..], sep, digitsFirst, hyphen, true)
  {
    hide InElement;
    var t := s[1..];
    forall i | 0 <= i < |t| ensures t[i] == s[i + 1] && Behind(t, sep, s[0] != sep, i) == Behind(s, sep, begun, i + 1) {}
    assert Behind(s, sep, begun, 0) == begun;
    hide Behind;
    if ElementsFrom(s, sep, digitsFirst, hyphen, begun) {
      forall i | 0 <= i < |t| && t[i] != sep ensures InElement(t[i], Behind(t, sep, s[0] != sep, i), digitsFirst, hyphen) {
        assert s[i + 1] == t[i];
      }
      forall i | 0 < i < |t| ensures t[i - 1] != sep || t[i] != sep { assert s[i] != sep || s[i + 1] != sep; }
    }
    if (s[0] == sep ==> begun) && (s[0] != sep ==> InElement(s[0], begun, digitsFirst, hyphen))
       && ElementsFrom(t, sep, digitsFirst, hyphen, s[0] != sep) {
      forall i | 0 < i < |s| ensures s[i - 1] != sep || s[i] != sep {
        if i > 1 { assert t[i - 2] != sep || t[i - 1] != sep; }
      }
      forall i | 0 <= i < |s| && s[i] != sep ensures InElement(s[i], Behind(s, sep, begun, i), digitsFirst, hyphen) {
        if i > 0 { assert t[i - 1] == s[i]; }
      }
    }
  }

  lemma {:induction false} SplitMeans(s: Text, sep: Byte, digitsFirst: bool, hyphen: bool, begun: bool)
    ensures Parts(Split(s, sep), digitsFirst, hyphen, begun) <==> ElementsFrom(s, sep, digitsFirst, hyphen, begun)
    decreases |s|
  {
    hide Parts, ElementsFrom, InElement, ValidElement;
    if s == [] {
      NoParts(digitsFirst, hyphen, sep, begun);
    } else {
      ElementsCons(s, sep, digitsFirst, hyphen, begun);
      PartsCons(s[0], Split(s[1..], sep), digitsFirst, hyphen, begun);
      PartsBegin(Split(s[1..], sep), digitsFirst, hyphen, begun);
      SplitMeans(s[1..], sep, digitsFirst, hyphen, s[0] != sep);
    }
  }

  lemma NoParts(digitsFirst: bool, hyphen: bool, sep: Byte, begun: bool)
    ensures Parts([[]], digitsFirst, hyphen, begun) <==> begun
    ensures ElementsFrom([], sep, digitsFirst, hyphen, begun) <==> begun
  {}

  lemma {:induction false} SplitCounts(s: Text, sep: Byte)
    ensures |Split(s, sep)| >= 2 <==> sep in s
    decreases |s|
  {
    if s != [] { SplitCounts(s[1..], sep); }
  }

  lemma WholeElements(s: Text, sep: Byte, digitsFirst: bool, hyphen: bool)
    ensures ElementsFrom(s, sep, digitsFirst, hyphen, false) <==> Elements(s, sep, digitsFirst, hyphen)
  {
    hide InElement;
  }

  lemma EachElement(s: Text, sep: Byte, digitsFirst: bool, hyphen: bool)
    ensures (forall k :: 0 <= k < |Split(s, sep)| ==> ValidElement(Split(s, sep)[k], digitsFirst, hyphen)) <==>
              Elements(s, sep, digitsFirst, hyphen)
  {
    SplitMeans(s, sep, digitsFirst, hyphen, false);
    WholeElements(s, sep, digitsFirst, hyphen);
    hide ValidElement, Elements, ElementsFrom;
  }

  // The tests that split at separators are the rules about single bytes.
  lemma NamesMean(s: Text)
    ensures ValidInterface(s) <==> InterfaceRule(s)
    ensures ValidMember(s) <==> MemberRule(s)
    ensures ValidBusName(s) <==> BusNameRule(s)
  {
    hide Elements;
    EachElement(s, 46, false, false);
    SplitCounts(s, 46);
    if s != [] {
      var name := if s[0] == 58 then s[1..] else s;
      EachElement(name, 46, s[0] == 58, true);
      SplitCounts(name, 46);
    }
    hide Split;
    MemberMeans(s);
    hide ValidElement;
  }

  lemma MemberMeans(s: Text)
    ensures ValidMember(s) <==> MemberRule(s)
  {}

  lemma PathMeans(s: Text)
    ensures ValidPath(s) <==> PathRule(s)
  {
    if s != [] && s[0] == 47 {
      EachElement(s[1..], 47, true, false);
      hide Elements, Split;
    }
  }

  // -- UTF-8 ---------------------------------------------------------------------------

  // A Unicode scalar value.
  type Rune = c: int | 0 <= c < 0xD800 || 0xE000 <= c < 0x11_0000

  // Its encoding, RFC 3629 section 3.
  function RuneBytes(c: Rune): Text {
    if c < 0x80 then [c]
    else if c < 0x800 then [0xC0 + c / 0x40, 0x80 + c % 0x40]
    else if c < 0x1_0000 then [0xE0 + c / 0x40 / 0x40, 0x80 + c / 0x40 % 0x40, 0x80 + c % 0x40]
    else [0xF0 + c / 0x40 / 0x40 / 0x40, 0x80 + c / 0x40 / 0x40 % 0x40, 0x80 + c / 0x40 % 0x40, 0x80 + c % 0x40]
  }

  function Runes(runes: seq<Rune>): Text {
    if runes == [] then [] else RuneBytes(runes[0]) + Runes(runes[1..])
  }

  lemma RuneFirst(c: Rune, rest: Text)
    ensures ValidUtf8(RuneBytes(c) + rest) <==> ValidUtf8(rest)
  {
    var b, s := RuneBytes(c), RuneBytes(c) + rest;
    assert s[|b|..] == rest && forall i :: 0 <= i < |b| ==> s[i] == b[i];
  }

  lemma {:induction false} RunesAreUtf8(runes: seq<Rune>)
    ensures ValidUtf8(Runes(runes))
    decreases |runes|
  {
    if runes != [] {
      RunesAreUtf8(runes[1..]);
      RuneFirst(runes[0], Runes(runes[1..]));
    }
  }

  // The first character of a text, and how many bytes it has.
  function FirstRune(s: Text): (r: (Rune, nat))
    requires s != [] && ValidUtf8(s)
    ensures 0 < r.1 <= |s| && ValidUtf8(s[r.1..])
  {
    if s[0] < 0x80 then (s[0], 1)
    else if s[0] < 0xE0 then (Sextet(s[0] as int - 0xC0, s[1]), 2)
    else if s[0] < 0xF0 then (Sextet(Sextet(s[0] as int - 0xE0, s[1]), s[2]), 3)
    else (Sextet(Sextet(Sextet(s[0] as int - 0xF0, s[1]), s[2]), s[3]), 4)
  }

  // Six more bits of a character.
  function Sextet(high: int, b: Byte): int {
    0x40 * high + (b as int - 0x80)
  }

  lemma SextetOut(high: int, b: Byte)
    requires Continuation(b)
    ensures Sextet(high, b) / 0x40 == high && 0x80 + Sextet(high, b) % 0x40 == b
  {}

  lemma FirstRuneBytes(s: Text)
    requires s != [] && ValidUtf8(s)
    ensures RuneBytes(FirstRune(s).0) == s[..FirstRune(s).1]
  {
    if s[0] >= 0xC2 {
      var a := s[0] as int - (if s[0] < 0xE0 then 0xC0 else if s[0] < 0xF0 then 0xE0 else 0xF0);
      SextetOut(a, s[1]);
      if s[0] >= 0xE0 {
        var b := Sextet(a, s[1]);
        SextetOut(b, s[2]);
        if s[0] >= 0xF0 { SextetOut(Sextet(b, s[2]), s[3]); }
      }
    }
    hide ValidUtf8, Sextet;
  }

  lemma {:induction false} Utf8IsRunes(s: Text) returns (runes: seq<Rune>)
    requires ValidUtf8(s)
    ensures Runes(runes) == s
    decreases |s|
  {
    hide ValidUtf8, RuneBytes, FirstRune;
    if s == [] {
      runes := [];
    } else {
      var (c, n) := FirstRune(s);
      FirstRuneBytes(s);
      var rest := Utf8IsRunes(s[n..]);
      runes := [c] + rest;
      assert runes[1..] == rest && s == s[..n] + s[n..];
    }
  }

  // A text is valid UTF-8 exactly if it is the encoding of some Unicode characters.
  lemma Utf8Means(s: Text)
    ensures ValidUtf8(s) <==> exists runes :: s == Runes(runes)
  {
    hide ValidUtf8, Runes;
    if ValidUtf8(s) {
      var runes := Utf8IsRunes(s);
    }
    if runes :| s == Runes(runes) {
      RunesAreUtf8(runes);
    }
  }

  lemma SupportedMeans(sig: Text)
    ensures Supported(sig) <==>
              |sig| <= 255 && forall i :: 0 <= i < |sig| ==> sig[i] in {121, 105, 117, 120, 116, 115, 111, 103, 118}
  {}
}
