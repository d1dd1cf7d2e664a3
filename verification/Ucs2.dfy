/** UTF-16BE text, section 2 of RFC 2781, and the decoder that guesses it. */
module Ucs2 {
  import opened Base
  import opened Splitting

  // ---------------------------------------------------------------- encoding

  function Units(r: rune): seq<uint16> {
    if r < 0x1_0000 then [r] else [0xD800 + (r - 0x1_0000) / 0x400, 0xDC00 + (r - 0x1_0000) % 0x400]
  }

  function Utf16(text: seq<rune>): seq<uint16> {
    if text == [] then [] else Units(text[0]) + Utf16(text[1..])
  }

  function BigEndian(units: seq<uint16>): (b: bytes)
    ensures |b| == 2 * |units|
  {
    if units == [] then [] else [units[0] / 256, units[0] % 256] + BigEndian(units[1..])
  }

  function EncodeUcs2(text: seq<rune>): bytes {
    BigEndian(Utf16(text))
  }

  lemma {:induction false} Utf16Append(a: seq<rune>, b: seq<rune>)
    ensures Utf16(a + b) == Utf16(a) + Utf16(b)
  {
    if a == [] {
      assert a + b == b;
    } else {
      assert (a + b)[1..] == a[1..] + b;
      Utf16Append(a[1..], b);
    }
  }

  lemma {:induction false} BigEndianAppend(a: seq<uint16>, b: seq<uint16>)
    ensures BigEndian(a + b) == BigEndian(a) + BigEndian(b)
  {
    if a == [] {
      assert a + b == b;
    } else {
      assert (a + b)[1..] == a[1..] + b;
      BigEndianAppend(a[1..], b);
    }
  }

  /** Encoding respects concatenation. */
  lemma {:induction false} EncodeAppend(a: seq<rune>, b: seq<rune>)
    ensures EncodeUcs2(a + b) == EncodeUcs2(a) + EncodeUcs2(b)
  {
    Utf16Append(a, b);
    BigEndianAppend(Utf16(a), Utf16(b));
  }

  lemma {:induction false} EncodedLength(text: seq<rune>)
    ensures |EncodeUcs2(text)| == 2 * |Utf16(text)| == 2 * Utf16Length(text)
  {
    if text != [] {
      EncodedLength(text[1..]);
    }
  }

  // ---------------------------------------------------------------- decoding

  const REPLACEMENT: rune := 0xFFFD

  predicate IsHigh(u: uint16) { 0xD800 <= u < 0xDC00 }

  predicate IsLow(u: uint16) { 0xDC00 <= u < 0xE000 }

  /** utf16.Decode: a lone surrogate becomes U+FFFD. */
  function DecodeUnits(units: seq<uint16>): seq<rune> {
    if units == [] then []
    else if !IsHigh(units[0]) && !IsLow(units[0]) then [units[0]] + DecodeUnits(units[1..])
    else if IsHigh(units[0]) && |units| >= 2 && IsLow(units[1]) then
      [0x1_0000 + (units[0] - 0xD800) * 0x400 + (units[1] - 0xDC00)] + DecodeUnits(units[2..])
    else [REPLACEMENT] + DecodeUnits(units[1..])
  }

  function ReadUnits(data: bytes): seq<uint16>
    requires |data| % 2 == 0
  {
    seq(|data| / 2, i requires 0 <= i < |data| / 2 => data[2 * i] as int * 256 + data[2 * i + 1])
  }

  lemma {:induction false} DecodeInvertsUtf16(text: seq<rune>)
    ensures DecodeUnits(Utf16(text)) == text
  {
    if text != [] {
      DecodeInvertsUtf16(text[1..]);
      var units := Utf16(text);
      if text[0] < 0x1_0000 {
        assert units[1..] == Utf16(text[1..]);
      } else {
        assert units[2..] == Utf16(text[1..]);
      }
    }
  }

  lemma {:induction false} BigEndianAt(units: seq<uint16>, i: nat)
    requires i < |units|
    ensures BigEndian(units)[2 * i] == units[i] / 256 && BigEndian(units)[2 * i + 1] == units[i] % 256
  {
    if i > 0 {
      BigEndianAt(units[1..], i - 1);
    }
  }

  lemma {:induction false} ReadInvertsBigEndian(units: seq<uint16>)
    ensures ReadUnits(BigEndian(units)) == units
  {
    forall i | 0 <= i < |units| ensures ReadUnits(BigEndian(units))[i] == units[i] {
      BigEndianAt(units, i);
    }
  }

  lemma {:induction false} ReadInvertsEncode(text: seq<rune>)
    ensures |EncodeUcs2(text)| % 2 == 0 && DecodeUnits(ReadUnits(EncodeUcs2(text))) == text
  {
    EncodedLength(text);
    ReadInvertsBigEndian(Utf16(text));
    DecodeInvertsUtf16(text);
  }

  /** Decoding accounts for every unit, well-formed or not. */
  lemma {:induction false} DecodedWidth(units: seq<uint16>)
    ensures Utf16Length(DecodeUnits(units)) == |units|
  {
    if units != [] {
      DecodedWidth(units[1..]);
      if |units| >= 2 { DecodedWidth(units[2..]); }
      var decoded := DecodeUnits(units);
      assert decoded[1..] == DecodeUnits(units[1..]) || (|units| >= 2 && decoded[1..] == DecodeUnits(units[2..]));
    }
  }

  /** Six octets make three units. */
  lemma {:induction false} ReadAfterSix(data: bytes)
    requires |data| % 2 == 0 && |data| >= 6
    ensures ReadUnits(data[6..]) == ReadUnits(data)[3..]
  {
    forall i | 0 <= i < |data| / 2 - 3 ensures ReadUnits(data[6..])[i] == ReadUnits(data)[3 + i] {
      assert data[6..][2 * i] == data[2 * (3 + i)];
    }
  }

  // ---------------------------------------------------------------- DecodeMessage

  /** Decoded text, or the octets handed through unread. */
  datatype Text = Runes(runes: seq<rune>) | Raw(octets: bytes) | Failed

  /** The decoders of the libraries, which are not part of this model. */
  datatype Codecs = Codecs(
    gsm7: bytes -> Text, gsm7Packed: bytes -> Text, latin1: bytes -> Text, cyrillic: bytes -> Text)

  predicate LooksLikeUdh(m: bytes) {
    || (|m| > 5 && m[0] == 5 && m[1] == 0 && m[2] == 3)
    || (|m| > 6 && m[0] == 6 && m[1] == 8 && m[2] == 4)
  }

  function Stripped(m: bytes): bytes {
    if LooksLikeUdh(m) then m[m[0] as int + 1..] else m
  }

  function LowHighBytes(m: bytes): nat
    requires |m| % 2 == 0
  {
    if m == [] then 0 else LowHighBytes(m[..|m| - 2]) + (if m[|m| - 2] <= 0x1F then 1 else 0)
  }

  predicate LooksUcs2(m: bytes) {
    |m| % 2 == 0 && LowHighBytes(m) * 2 > |m| / 2
  }

  /** The pairs of octets that start with at most 0x1F. */
  function LowPairs(m: bytes): set<nat> {
    set i: nat | i < |m| / 2 && m[2 * i] <= 0x1F
  }

  lemma {:induction false} CountsLowPairs(m: bytes)
    ensures |m| % 2 == 0 ==> LowHighBytes(m) == |LowPairs(m)|
    decreases |m|
  {
    if |m| % 2 == 0 && m != [] {
      var front, last := m[..|m| - 2], |m| / 2 - 1;
      CountsLowPairs(front);
      assert LowPairs(m) == LowPairs(front) + (if m[|m| - 2] <= 0x1F then {last} else {});
    }
  }

  method GuessUcs2(m: bytes) returns (yes: bool)
    ensures yes <==> LooksUcs2(m)
    ensures yes <==> |m| % 2 == 0 && 2 * |LowPairs(m)| > |m| / 2
  {
    if |m| % 2 != 0 {
      return false;
    }
    var count, i := 0, 0;
    while i < |m|
      invariant 0 <= i <= |m| && i % 2 == 0
      invariant count == LowHighBytes(m[..i])
    {
      assert m[..i + 2][..i] == m[..i];
      if m[i] <= 0x1F {
        count := count + 1;
      }
      i := i + 2;
    }
    assert m[..|m|] == m;
    CountsLowPairs(m);
    yes := count * 2 > |m| / 2;
  }

  function DecodeBody(m: bytes, coding: uint8, codecs: Codecs): Text {
    if m == [] then Runes([])
    else if coding == CODING_UCS2 || (coding == CODING_DEFAULT && LooksUcs2(m)) then
      if |m| % 2 != 0 then Raw(m) else Runes(DecodeUnits(ReadUnits(m)))
    else if coding == CODING_DEFAULT then
      if forall i :: 0 <= i < |m| ==> m[i] <= 127 then codecs.gsm7(m) else codecs.gsm7Packed(m)
    else if coding == CODING_LATIN1 then codecs.latin1(m)
    else if coding == CODING_CYRILLIC then codecs.cyrillic(m)
    else Raw(m)
  }

  method ReadAllUnits(m: bytes) returns (units: seq<uint16>)
    requires |m| % 2 == 0
    ensures units == ReadUnits(m)
  {
    units := [];
    for i := 0 to |m| / 2
      invariant units == ReadUnits(m)[..i]
    {
      units := units + [m[2 * i] as int * 256 + m[2 * i + 1]];
    }
  }

  /** Which decoder a coding stands for: 3 Latin1, 6 Cyrillic, 8 and what looks like it UCS2, 0 otherwise GSM. */
  predicate ByCoding(m: bytes, coding: uint8, codecs: Codecs, text: Text) {
    var guessed := |m| % 2 == 0 && 2 * |LowPairs(m)| > |m| / 2;
    && (m == [] ==> text == Runes([]))
    && (m != [] && coding == 3 ==> text == codecs.latin1(m))
    && (m != [] && coding == 6 ==> text == codecs.cyrillic(m))
    && (m != [] && coding == 0 && !guessed ==>
          text == if forall i :: 0 <= i < |m| ==> m[i] <= 127 then codecs.gsm7(m) else codecs.gsm7Packed(m))
    && (m != [] && (coding == 8 || (coding == 0 && guessed)) && |m| % 2 == 0 ==>
          text == Runes(DecodeUnits(ReadUnits(m))))
    && (coding == 8 && |m| % 2 == 1 ==> text == Raw(m))
    && (m != [] && coding !in {0, 3, 6, 8} ==> text == Raw(m))
  }

  lemma {:induction false} BodyByCoding(m: bytes, coding: uint8, codecs: Codecs)
    ensures ByCoding(m, coding, codecs, DecodeBody(m, coding, codecs))
  {
    CountsLowPairs(m);
  }

  method DecodeMessage(message: bytes, dataCoding: uint8, codecs: Codecs) returns (text: Text)
    ensures text == DecodeBody(Stripped(message), dataCoding, codecs)
    ensures message == [] ==> text == Runes([])
    ensures var m := message;
            var rest := if |m| > 5 && m[0] == 5 && m[1] == 0 && m[2] == 3 then m[6..]
                        else if |m| > 6 && m[0] == 6 && m[1] == 8 && m[2] == 4 then m[7..] else m;
            ByCoding(rest, dataCoding, codecs, text)
  {
    hide ByCoding, LowPairs, LowHighBytes, LooksUcs2, DecodeUnits, ReadUnits;
    BodyByCoding(Stripped(message), dataCoding, codecs);
    var m, coding := message, dataCoding;
    if |m| == 0 {
      return Runes([]);
    }
    if |m| > 1 {
      var udhLen: int := m[0];
      if udhLen > 0 && udhLen < |m| {
        if (udhLen == 5 && m[1] == 0 && m[2] == 3) || (udhLen == 6 && m[1] == 8 && m[2] == 4) {
          m := m[udhLen + 1..];
        }
      }
    }
    if |m| == 0 {
      return Runes([]);
    }
    if coding == CODING_DEFAULT {
      var guess := GuessUcs2(m);
      if guess {
        coding := CODING_UCS2;
      }
    }
    if coding == CODING_DEFAULT {
      var unpacked := true;
      for i := 0 to |m|
        invariant unpacked
        invariant forall j :: 0 <= j < i ==> m[j] <= 127
      {
        if m[i] > 127 {
          unpacked := false;
          break;
        }
      }
      text := if unpacked then codecs.gsm7(m) else codecs.gsm7Packed(m);
    } else if coding == CODING_UCS2 {
      if |m| % 2 != 0 {
        return Raw(m);
      }
      var units := ReadAllUnits(m);
      text := Runes(DecodeUnits(units));
    } else if coding == CODING_LATIN1 {
      text := codecs.latin1(m);
    } else if coding == CODING_CYRILLIC {
      text := codecs.cyrillic(m);
    } else {
      text := Raw(m);
    }
  }

  // ---------------------------------------------------------------- laws

  /** On octets, for one rune, section 2.1 of RFC 2781. */
  lemma {:induction false} EncodesOne(r: rune)
    ensures r < 0x1_0000 ==> EncodeUcs2([r]) == [r / 0x100, r % 0x100]
    ensures r >= 0x1_0000 ==>
              var v := r - 0x1_0000;
              var high, low := 0xD800 + v / 0x400, 0xDC00 + v % 0x400;
              EncodeUcs2([r]) == [high / 0x100, high % 0x100, low / 0x100, low % 0x100]
  {
    var text: seq<rune> := [r];
    assert text[1..] == [] && Utf16(text[1..]) == [];
    var units := Utf16(text);
    assert units == Units(r);
    if |units| == 1 {
      assert units[1..] == [];
    } else {
      assert units[1..] == [units[1]] && [units[1]][1..] == [];
      assert BigEndian([units[1]]) == [units[1] / 256, units[1] % 256] + [];
    }
  }

  /** An encoder that a codec inverts on a text. */
  predicate Inverts(codec: bytes -> Text, enc: seq<rune> -> bytes, text: seq<rune>) {
    codec(enc(text)) == Runes(text) && (enc(text) == [] ==> text == [])
  }

  /**
   * Latin1, Cyrillic and the default alphabet, 3, 6 and 0: what the codec of the coding
   * inverts comes back unless the octets look like a header or, under the default coding,
   * like UCS2.
   */
  lemma {:induction false} CodecsInvert(text: seq<rune>, enc: seq<rune> -> bytes, codecs: Codecs)
    requires !LooksLikeUdh(enc(text))
    ensures Inverts(codecs.latin1, enc, text) ==> DecodeBody(Stripped(enc(text)), 3, codecs) == Runes(text)
    ensures Inverts(codecs.cyrillic, enc, text) ==> DecodeBody(Stripped(enc(text)), 6, codecs) == Runes(text)
    ensures (forall i :: 0 <= i < |enc(text)| ==> enc(text)[i] <= 127) && Inverts(codecs.gsm7, enc, text) &&
            !(|enc(text)| % 2 == 0 && 2 * |LowPairs(enc(text))| > |enc(text)| / 2) ==>
              DecodeBody(Stripped(enc(text)), 0, codecs) == Runes(text)
  {
    CountsLowPairs(enc(text));
  }

  /** UCS2 decoding inverts UTF-16BE encoding for every text, unless the octets look like a header. */
  lemma {:induction false} DecodeInvertsEncode(text: seq<rune>, codecs: Codecs)
    requires !LooksLikeUdh(EncodeUcs2(text))
    ensures DecodeBody(Stripped(EncodeUcs2(text)), CODING_UCS2, codecs) == Runes(text)
  {
    DecodeInvertsUtf16(text);
    ReadInvertsBigEndian(Utf16(text));
    if text != [] {
      EncodedLength(text);
    }
  }

  /** Dropping one unit drops at most one rune. */
  lemma {:induction false} DropOneUnit(units: seq<uint16>)
    requires units != []
    ensures |DecodeUnits(units[1..])| >= |DecodeUnits(units)| - 1
    ensures !IsHigh(units[0]) ==> |DecodeUnits(units[1..])| == |DecodeUnits(units)| - 1
    ensures |DecodeUnits(units[1..])| <= |DecodeUnits(units)|
  {
    if IsHigh(units[0]) && |units| >= 2 && IsLow(units[1]) {
      assert units[1..][1..] == units[2..];
    }
  }

  lemma {:induction false} DropThreeUnits(units: seq<uint16>)
    requires |units| >= 3 && !IsHigh(units[0]) && !IsHigh(units[1])
    ensures |DecodeUnits(units[3..])| < |DecodeUnits(units)|
  {
    DropOneUnit(units);
    DropOneUnit(units[1..]);
    DropOneUnit(units[2..]);
    assert units[1..][1..] == units[2..] && units[2..][1..] == units[3..];
  }

  // ---------------------------------------------------------------- the strings these are

  /** UTF-8, section 3 of RFC 3629. */
  function Utf8Octets(r: rune): (b: bytes)
    ensures |b| == Utf8Width(r)
  {
    if r < 0x80 then [r]
    else if r < 0x800 then [0xC0 + r / 0x40, 0x80 + r % 0x40]
    else if r < 0x1_0000 then [0xE0 + r / 0x1000, 0x80 + r / 0x40 % 0x40, 0x80 + r % 0x40]
    else [0xF0 + r / 0x4_0000, 0x80 + r / 0x1000 % 0x40, 0x80 + r / 0x40 % 0x40, 0x80 + r % 0x40]
  }

  /** The octets of a text as a Go string. */
  function Utf8(text: seq<rune>): bytes {
    if text == [] then [] else Utf8(text[..|text| - 1]) + Utf8Octets(text[|text| - 1])
  }

  /** The string DecodeMessage returns; an error comes with the empty one. */
  function StringOf(t: Text): bytes {
    match t
    case Runes(runes) => Utf8(runes)
    case Raw(octets) => octets
    case Failed => []
  }

  function Count(b: bytes, p: uint8 -> bool): nat {
    if b == [] then 0 else Count(b[..|b| - 1], p) + (if p(b[|b| - 1]) then 1 else 0)
  }

  lemma {:induction false} CountAppend(a: bytes, b: bytes, p: uint8 -> bool)
    ensures Count(a + b, p) == Count(a, p) + Count(b, p)
  {
    if b == [] {
      assert a + b == a;
    } else {
      assert (a + b)[..|a + b| - 1] == a + b[..|b| - 1];
      CountAppend(a, b[..|b| - 1], p);
    }
  }

  predicate Starts(b: uint8) { b < 0x80 || b >= 0xC0 }

  predicate IsZero(b: uint8) { b == 0 }

  /** How many runes of a text take so many octets, or are NUL. */
  function OfWidth(text: seq<rune>, w: nat): nat {
    if text == [] then 0 else OfWidth(text[..|text| - 1], w) + (if Utf8Width(text[|text| - 1]) == w then 1 else 0)
  }

  function Nuls(text: seq<rune>): nat {
    if text == [] then 0 else Nuls(text[..|text| - 1]) + (if text[|text| - 1] == 0 then 1 else 0)
  }

  lemma {:induction false} OctetsOfRune(r: rune)
    ensures Count(Utf8Octets(r), Starts) == 1
    ensures Count(Utf8Octets(r), IsZero) == if r == 0 then 1 else 0
  {
    var b := Utf8Octets(r);
    CountShort(b, Starts);
    CountShort(b, IsZero);
  }

  lemma {:induction false} CountShort(b: bytes, p: uint8 -> bool)
    requires 1 <= |b| <= 4
    ensures Count(b, p) == (if p(b[0]) then 1 else 0) + (if |b| > 1 && p(b[1]) then 1 else 0) +
                           (if |b| > 2 && p(b[2]) then 1 else 0) + (if |b| > 3 && p(b[3]) then 1 else 0)
  {
    if |b| > 1 { CountShort(b[..|b| - 1], p); }
  }

  /** The string tells how many runes it has, and its only NUL octets are NUL runes. */
  lemma {:induction false} StringCounts(text: seq<rune>)
    ensures Count(Utf8(text), Starts) == |text| && Count(Utf8(text), IsZero) == Nuls(text)
  {
    if text != [] {
      var front, last := text[..|text| - 1], text[|text| - 1];
      StringCounts(front);
      OctetsOfRune(last);
      CountAppend(Utf8(front), Utf8Octets(last), Starts);
      CountAppend(Utf8(front), Utf8Octets(last), IsZero);
    }
  }

  /** One-octet runes make a string shorter than its UTF-16, three-octet runes make it longer. */
  lemma {:induction false} StringLength(text: seq<rune>)
    ensures |Utf8(text)| == |EncodeUcs2(text)| - OfWidth(text, 1) + OfWidth(text, 3)
  {
    if text != [] {
      var front, last := text[..|text| - 1], text[|text| - 1];
      StringLength(front);
      assert front + [last] == text;
      EncodeAppend(front, [last]);
      EncodedLength([last]);
      assert [last][1..] == [];
    }
  }

  /** In UTF-16 every one-octet rune brings a NUL octet, and NUL two. */
  lemma {:induction false} EncodedZeros(text: seq<rune>)
    ensures Count(EncodeUcs2(text), IsZero) >= OfWidth(text, 1) + Nuls(text)
  {
    if text != [] {
      var front, last := text[..|text| - 1], text[|text| - 1];
      EncodedZeros(front);
      assert front + [last] == text;
      EncodeAppend(front, [last]);
      CountAppend(EncodeUcs2(front), EncodeUcs2([last]), IsZero);
      if last < 0x80 {
        assert [last][1..] == [] && Utf16([last]) == [last];
        assert BigEndian([last]) == [0, last] + BigEndian([]);
        assert EncodeUcs2([last]) == [0, last];
        CountShort([0, last], IsZero);
      }
    }
  }

  /** A text under the long header lookalike is not the octets left behind the header. */
  lemma {:induction false} LongLookalike(text: seq<rune>)
    requires var m := EncodeUcs2(text); |m| > 6 && m[0] == 6 && m[1] == 8 && m[2] == 4
    ensures Utf8(text) != EncodeUcs2(text)[7..]
  {
    var m := EncodeUcs2(text);
    StringLength(text);
    StringCounts(text);
    EncodedZeros(text);
    assert m[..7] + m[7..] == m && m[..3] + m[3..7] == m[..7];
    CountAppend(m[..7], m[7..], IsZero);
    CountAppend(m[..3], m[3..7], IsZero);
    CountShort(m[..3], IsZero);
    CountShort(m[3..7], IsZero);
  }

  /** A text under the short one has more runes than what is left. */
  lemma {:induction false} ShortLookalike(text: seq<rune>)
    requires var m := EncodeUcs2(text); |m| > 5 && m[0] == 5 && m[1] == 0 && m[2] == 3
    ensures |EncodeUcs2(text)[6..]| % 2 == 0 && |DecodeUnits(ReadUnits(EncodeUcs2(text)[6..]))| < |text|
  {
    var m, units := EncodeUcs2(text), Utf16(text);
    EncodedLength(text);
    BigEndianAt(units, 0);
    BigEndianAt(units, 1);
    ReadInvertsBigEndian(units);
    ReadAfterSix(m);
    DecodeInvertsUtf16(text);
    DropThreeUnits(units);
  }

  /** A text whose octets do look like a header never comes back: DecodeMessage returns some other string. */
  lemma {:induction false} HeaderLookalikeIsLost(text: seq<rune>, codecs: Codecs)
    requires LooksLikeUdh(EncodeUcs2(text))
    ensures StringOf(DecodeBody(Stripped(EncodeUcs2(text)), CODING_UCS2, codecs)) != Utf8(text)
  {
    hide Count, Utf8, DecodeUnits, EncodeUcs2, ReadUnits, LooksUcs2;
    var m := EncodeUcs2(text);
    EncodedLength(text);
    StringCounts(text);
    if m[0] == 5 {
      ShortLookalike(text);
      StringCounts(DecodeUnits(ReadUnits(m[6..])));
      StringCounts([]);
    } else {
      LongLookalike(text);
    }
  }

  /** So UCS2 decoding returns the text exactly if its octets do not look like a header. */
  lemma {:induction false} DecodesExactly(text: seq<rune>, codecs: Codecs)
    ensures StringOf(DecodeBody(Stripped(EncodeUcs2(text)), CODING_UCS2, codecs)) == Utf8(text)
            <==> !LooksLikeUdh(EncodeUcs2(text))
  {
    if LooksLikeUdh(EncodeUcs2(text)) {
      HeaderLookalikeIsLost(text, codecs);
    } else {
      DecodeInvertsEncode(text, codecs);
    }
  }

  /** How many code units lie below U+2000, whose high byte is at most 0x1F. */
  function LowUnits(units: seq<uint16>): nat {
    if units == [] then 0 else LowUnits(units[..|units| - 1]) + (if units[|units| - 1] < 0x2000 then 1 else 0)
  }

  lemma {:induction false} LowBytesAreLowUnits(units: seq<uint16>)
    ensures LowHighBytes(BigEndian(units)) == LowUnits(units)
  {
    if units != [] {
      var front, last := units[..|units| - 1], units[|units| - 1];
      LowBytesAreLowUnits(front);
      BigEndianAppend(front, [last]);
      assert front + [last] == units;
      assert BigEndian([last]) == [last / 256, last % 256] + BigEndian([]);
      assert BigEndian(units)[..|BigEndian(units)| - 2] == BigEndian(front);
    }
  }

  /**
   * Mislabelled as default coding the octets decode the same, whenever more than half of the
   * code units are below U+2000.
   */
  lemma {:induction false} GuessRecovers(text: seq<rune>, codecs: Codecs)
    requires !LooksLikeUdh(EncodeUcs2(text)) && 2 * LowUnits(Utf16(text)) > |Utf16(text)|
    ensures DecodeBody(Stripped(EncodeUcs2(text)), CODING_DEFAULT, codecs) == Runes(text)
  {
    LowBytesAreLowUnits(Utf16(text));
    DecodeInvertsEncode(text, codecs);
  }
}
